/**
 * The yarn version gate: corepack must have installed a yarn in the half-open
 * range [1.22.0, 2.0.0). Versions are already-parsed major.minor.patch triples
 * ordered as in item 11 of Semantic Versioning 2.0.0 (numeric, left to right).
 */
module YarnVersion {

  datatype Version = Version(major: nat, minor: nat, patch: nat)

  /** Semantic-version precedence on release triples: compare major, then minor, then patch. */
  predicate Precedes(a: Version, b: Version) {
    || a.major < b.major
    || (a.major == b.major && a.minor < b.minor)
    || (a.major == b.major && a.minor == b.minor && a.patch < b.patch)
  }

  /** Membership in a range with an inclusive lower and an exclusive upper bound. */
  predicate InRange(v: Version, lower: Version, upper: Version) {
    !Precedes(v, lower) && Precedes(v, upper)
  }

  const SupportedLower := Version(1, 22, 0)
  const SupportedUpper := Version(2, 0, 0)

  /** Precedence is a strict total order on triples. */
  lemma PrecedesIsStrictTotalOrder(a: Version, b: Version, c: Version)
    ensures !Precedes(a, a)
    ensures Precedes(a, b) ==> !Precedes(b, a)
    ensures Precedes(a, b) && Precedes(b, c) ==> Precedes(a, c)
    ensures a == b || Precedes(a, b) || Precedes(b, a)
  {
  }
}

/** The check that corepack resolved a supported yarn before anything is installed. */
module YarnVersionGate {
  import opened Wrappers
  import opened YarnErrors
  import opened YarnVersion

  /**
   * Accepts exactly the versions in [1.22.0, 2.0.0), which are the 1.x releases
   * from 1.22 on; any other version is rejected with an error naming it.
   */
  function VerifyCorepackYarnVersion(installed: Version): (r: Outcome<Error>)
    ensures r.Pass? <==> installed.major == 1 && installed.minor >= 22
    ensures r.Fail? ==> r.error == YarnVersionMismatch(installed) && !r.error.IsPackageRejected()
  {
    if !InRange(installed, SupportedLower, SupportedUpper) then Fail(YarnVersionMismatch(installed)) else Pass
  }

  /** The boundary cases: both ends of the range and just outside it. */
  lemma VersionGateBoundaries()
    ensures VerifyCorepackYarnVersion(Version(1, 22, 0)) == Pass
    ensures VerifyCorepackYarnVersion(Version(1, 22, 5)) == Pass
    ensures VerifyCorepackYarnVersion(Version(1, 99, 9)) == Pass
    ensures VerifyCorepackYarnVersion(Version(1, 21, 9)) == Fail(YarnVersionMismatch(Version(1, 21, 9)))
    ensures VerifyCorepackYarnVersion(Version(2, 0, 0)) == Fail(YarnVersionMismatch(Version(2, 0, 0)))
    ensures VerifyCorepackYarnVersion(Version(3, 0, 0)) == Fail(YarnVersionMismatch(Version(3, 0, 0)))
  {
  }
}
