/**
 * The errors the yarn-classic prefetch raises, one variant per exception it
 * throws, each carrying the structured context that its message is built from.
 */
module YarnErrors {
  import opened YarnVersion

  datatype Error =
      /** `yarn.lock` is absent from the project's source directory. */
    | MissingLockfile
      /** The lockfile lacks the `yarn lockfile v1` marker; carries the project's source dir. */
    | NotV1Lockfile(packagePath: string)
      /** The project is configured for Plug'n'Play installs. */
    | PnpInstall
      /** Corepack installed a yarn outside the supported range; carries the version found. */
    | YarnVersionMismatch(found: Version)
      /** `yarn install` exited unsuccessfully; carries the tool's diagnostic output. */
    | YarnCommandFailed(diagnostic: string)
      /** Two different mirrored packages share an offline-mirror tarball name. */
    | MirrorCollision(tarballName: string, count: nat)
  {
    /**
     * hermeto raises the first three as `PackageRejected` (the input is
     * unacceptable) and the others as `PackageManagerError`.
     */
    predicate IsPackageRejected() {
      MissingLockfile? || NotV1Lockfile? || PnpInstall?
    }
  }
}
