# yarn-classic prefetch, modelled in Dafny

This project models hermeto's yarn v1 ("classic") prefetch orchestrator. A
request names a source checkout, an output directory and the yarn package
directories inside the checkout. For each package directory, in request
order, the orchestrator does five things:

1. It validates the checkout. `yarn.lock` must exist, it must be a yarn v1
   lockfile, and the project must not be a Plug'n'Play install.
2. It makes sure the offline mirror directory `<output>/deps/yarn-classic`
   exists.
3. It checks that corepack installed a yarn in `[1.22.0, 2.0.0)`.
4. It runs `yarn install` with fixed arguments in a hermetic environment.
5. It resolves the installed packages, checks that no two different packages
   share one tarball name in the offline mirror, and turns each package into
   an SBOM component.

The first error ends the whole request. If nothing fails, the result is the
components together with the two build-time environment variables.

The model consists of these modules:

- `Wrappers`: `Option`, `Outcome` (pass or fail) and `Result`.
- `YarnErrors`: the errors the core raises. A predicate tells the
  user-input rejections from the package-manager failures.
- `Packages`: a resolved package. It carries its kind (registry, url, git,
  file, link, workspace), its fields, and whether the kind is copied into the
  offline mirror.
- `Repository`: the three checkout checks and the order they run in. File
  existence, the lockfile text and the PnP flag are fields of `Project`.
- `YarnVersion` and `YarnVersionGate`: versions, their order, and the
  corepack version gate.
- `Environment`: the prefetch environment and the build environment. The
  prefetch environment is the seven variables of the dict display in
  `_get_prefetch_environment_variables`, added in order to a map. The build
  environment is two variables, in order.
- `MirrorCollisions`: the offline-mirror collision check. The imperative
  version keeps a map of groups plus the order in which the map was first
  filled, as Python's `defaultdict` does. It is proved equal to a functional
  specification, and equivalent to "packages with equal tarball names are
  equal".
- `Sbom`: the package-to-component mapping, as a loop proved against a
  recursive specification.
- `YarnClassic`: the orchestrator. What the outside world answers for one
  package directory is a `ProjectFacts` value: the lockfile, the PnP flag,
  the installed yarn version, whether `yarn install` succeeded, and the
  resolved packages. Every action on the outside world is recorded, in order,
  as an `Effect` in a log the methods return: the mirror-directory creation,
  the two yarn invocations, and the resolver call. How far the outside world
  lets each package get (validated, supported yarn, install succeeded) is a
  `Progress` value. The specified log of a request is built from those values,
  and its properties are proved for any sequence of them.

The tarball-name derivations, for plain tarballs and for git packages, are
not part of this model. They are a parameter of type `MirrorNaming`, and every
result holds for every pair of functions.

## Model

| member | source | states |
|---|---|---|
| `Repository.Contains` | hermeto/core/package_managers/yarn_classic/main.py:178 | The substring test is true exactly when the pattern occurs in the text at some index. |
| `Repository.RejectIfLockfileIsMissing` | hermeto/core/package_managers/yarn_classic/main.py:182-185 | Passes exactly when `yarn.lock` exists; otherwise fails with `MissingLockfile`. |
| `Repository.RejectIfWrongLockfileVersion` | hermeto/core/package_managers/yarn_classic/main.py:175-179 | Passes exactly when "yarn lockfile v1" occurs somewhere in the lockfile text; otherwise fails with `NotV1Lockfile` carrying the project's source directory. |
| `Repository.RejectIfPnpInstall` | hermeto/core/package_managers/yarn_classic/main.py:158-168 | Passes exactly when the project is not a PnP install; otherwise fails with the PnP rejection. |
| `Repository.VerifyRepository` | hermeto/core/package_managers/yarn_classic/main.py:188-191 | The checks run in order: a missing lockfile is reported first, then a non-v1 lockfile, then PnP. The PnP error comes exactly when the lockfile exists, is v1 and PnP is on. It passes exactly when all three hold. Every failure is a package rejection. |
| `YarnVersion.PrecedesIsStrictTotalOrder` | hermeto/core/package_managers/yarn_classic/main.py:198 | Version precedence, which the range test relies on, is irreflexive, asymmetric, transitive and total. |
| `YarnVersionGate.VerifyCorepackYarnVersion` | hermeto/core/package_managers/yarn_classic/main.py:194-204 | Membership in `[1.22.0, 2.0.0)` is exactly "major is 1 and minor is at least 22". A failure carries the installed version and is a package-manager error, not a rejection. |
| `YarnVersionGate.VersionGateBoundaries` | hermeto/core/package_managers/yarn_classic/main.py:198-202 | 1.22.0, 1.22.5 and 1.99.9 pass. 1.21.9, 2.0.0 and 3.0.0 fail, each with its own version in the error. |
| `Environment.Decimal` | hermeto/core/package_managers/yarn_classic/main.py:135 | An f-string rendering of a natural number is a non-empty string of decimal digits. |
| `Environment.DecimalDenotes` | hermeto/core/package_managers/yarn_classic/main.py:135 | Reading the rendering back as decimal digits gives the number itself, and it starts with "0" only for 0 itself, so there are no leading zeros. |
| `Environment.TimeoutRendering` | hermeto/core/package_managers/yarn_classic/main.py:135 | The network timeout renders as "600000". |
| `Environment.AsMapKeys` | hermeto/core/package_managers/yarn_classic/main.py:130-138 | The dict built from a list of variables has exactly the names in the list as its keys. |
| `Environment.AsMapLookup` | hermeto/core/package_managers/yarn_classic/main.py:130-138 | A variable whose name no later entry reuses keeps its value in the dict, as with a dict display. |
| `Environment.PrefetchEnvironmentKeys` | hermeto/core/package_managers/yarn_classic/main.py:128-138 | The prefetch environment sets exactly seven variables: `COREPACK_ENABLE_DOWNLOAD_PROMPT`, `COREPACK_ENABLE_PROJECT_SPEC`, `YARN_IGNORE_PATH`, `YARN_IGNORE_SCRIPTS`, `YARN_NETWORK_TIMEOUT`, `YARN_YARN_OFFLINE_MIRROR` and `YARN_YARN_OFFLINE_MIRROR_PRUNING`. |
| `Environment.PrefetchEnvironmentValues` | hermeto/core/package_managers/yarn_classic/main.py:130-138 | The values are: download prompt "0", project spec "0", ignore path "true", ignore scripts "true", network timeout "600000", offline mirror `<outputDir>/deps/yarn-classic`, and pruning "false". |
| `Environment.BuildEnvironmentVariables` | hermeto/core/package_managers/yarn_classic/main.py:141-155 | Exactly two variables, in dictionary order: first the mirror at the mirror directory under the `${output_dir}` placeholder, then pruning "false". |
| `Environment.PlaceholderMirrorPath` | hermeto/core/package_managers/yarn_classic/main.py:151 | The literal build-time mirror path is the mirror directory joined under the placeholder. |
| `Environment.BuildEnvironmentAgreesWithPrefetch` | hermeto/core/package_managers/yarn_classic/main.py:128-155 | Each build variable is set by the prefetch environment, with the same value, when the output directory is the placeholder. |
| `MirrorCollisions.MirrorName` | hermeto/core/package_managers/yarn_classic/main.py:217-226 | Registry and url packages are named by the tarball derivation of their url, and git packages by the git derivation. File, link and workspace packages have no mirror name. |
| `MirrorCollisions.GroupByTarballName` | hermeto/core/package_managers/yarn_classic/main.py:213-224 | The first loop yields the names of the mirrored packages in the order they were first seen. The map holds exactly those names, and each maps to the packages with that name, in input order. |
| `MirrorCollisions.AllEqualToFirst` | hermeto/core/package_managers/yarn_classic/main.py:229 | The loop returns true exactly when every package of the group equals the first. |
| `MirrorCollisions.VerifyNoOfflineMirrorCollisions` | hermeto/core/package_managers/yarn_classic/main.py:207-234 | The map-and-insertion-order implementation equals the specification `CollisionCheck`. It passes exactly when any two packages with the same mirror name are equal. |
| `MirrorCollisions.CollisionCheckIsConsistency` | hermeto/core/package_managers/yarn_classic/main.py:207-234 | The check passes if and only if any two packages sharing a tarball name are equal; this is the documented exception for npm aliases. |
| `MirrorCollisions.CollisionReport` | hermeto/core/package_managers/yarn_classic/main.py:228-234 | A reported collision names a tarball whose group has two different members. Its count is the group's size, which is at least 2. Every group whose name first appeared earlier is uniform. |
| `MirrorCollisions.CollisionVerdictIgnoresOrder` | hermeto/core/package_managers/yarn_classic/main.py:207-234 | Whether the check passes depends only on the multiset of packages, not on their order. |
| `MirrorCollisions.NonMirroredIgnored` | hermeto/core/package_managers/yarn_classic/main.py:222-224 | Dropping the file, link and workspace packages leaves the verdict, including the error, unchanged. |
| `MirrorCollisions.TwoRegistryPackages` | hermeto/core/package_managers/yarn_classic/main.py:217-234 | Two registry packages with the same tarball name pass when they are equal. When they differ, the check fails with that name and a count of 2. |
| `Sbom.SbomComponentsAt` | hermeto/core/package_managers/yarn_classic/main.py:90-104 | One component per package, in order. Each carries the package's name, purl and version, with the development flag as its only property. |
| `Sbom.SbomComponentsAppend` | hermeto/core/package_managers/yarn_classic/main.py:90-104 | Mapping a concatenation is the concatenation of the mappings, so extending per project composes. |
| `Sbom.CreateSbomComponents` | hermeto/core/package_managers/yarn_classic/main.py:90-104 | The loop yields exactly one component per package: same length, element-wise fields, equal to the specification. |
| `YarnClassic.ProjectOutcomeSpec` | hermeto/core/package_managers/yarn_classic/main.py:64-87 | One package yields components exactly when four things hold: it validates, the yarn version is supported, `yarn install` succeeds, and the mirror is consistent. Those components are the SBOM of its resolved packages. A validation error takes precedence over all others, and a version error comes next. |
| `YarnClassic.CollectSucceedsIffAllDo` | hermeto/core/package_managers/yarn_classic/main.py:64-70 | Collecting outcomes in order succeeds exactly when every one succeeds. |
| `YarnClassic.CollectFailsWithFirstError` | hermeto/core/package_managers/yarn_classic/main.py:64-70 | A failed collection reports the error of the first failing package, and every earlier package succeeded. |
| `YarnClassic.CollectedComponentsAreAllResolved` | hermeto/core/package_managers/yarn_classic/main.py:59-70 | A successful collection is the SBOM of all resolved packages, concatenated in request order. |
| `YarnClassic.ResolveYarnProject` | hermeto/core/package_managers/yarn_classic/main.py:77-125 | The result equals the specification `ResolveOutcome`. The log is exactly the version query in the prefetch environment; then, only with a supported yarn, the install with the six fixed arguments in that environment; then, only after a successful install, the resolver on the mirror directory. |
| `YarnClassic.ProjectEffectsSpec` | hermeto/core/package_managers/yarn_classic/main.py:61-84 | One package's log is empty exactly when its checkout fails validation. Otherwise: first the mirror directory under the output directory; then `yarn --version` in `<checkout>/<package path>` in the prefetch environment; then `yarn install` exactly when the version is supported; then the resolver on the mirror directory exactly when the install also succeeded. |
| `YarnClassic.EffectLogProperties` | hermeto/core/package_managers/yarn_classic/main.py:57-87 | The log of the first n packages acts only for packages among them that validated, comes in request order, and ensures the mirror directory before any yarn subprocess of a package. It runs `yarn install` only with a supported yarn, the fixed arguments and the prefetch environment. |
| `YarnClassic.FetchRequestedPackage` | hermeto/core/package_managers/yarn_classic/main.py:64-70 | The outcome equals the specification `ProjectOutcome`. The log is exactly `ProjectEffects` for that package: nothing when it fails validation, otherwise the mirror directory and then the project's own actions. |
| `YarnClassic.FetchYarnSource` | hermeto/core/package_managers/yarn_classic/main.py:57-74 | `FetchSpec`: the request succeeds exactly when every package does. Its output is then the SBOM of all resolved packages in order, the build environment, and no project files, and its log is exactly that of all packages. On failure it stops at the first failing package with that package's error, and its log is exactly that of the packages up to it, so nothing is done for a later package. In every case the log acts only for validated packages, comes in request order, ensures the mirror directory before any subprocess, and runs only hermetic installs. |

## Left out

- `run_yarn_cmd`, `extract_yarn_version_from_env` and `resolve_packages` are not part of this model. Their results (success or the diagnostic, the installed version, the resolved packages) are inputs in `ProjectFacts`, and their calls are effects in the log.
- The version query and the resolver never fail in the model. The installed version and the resolved packages are inputs, so a failure of `extract_yarn_version_from_env` to read a version, or of `resolve_packages`, is not modelled.
- `Project.from_source_dir` is not part of this model. A project's lockfile presence, lockfile text and PnP flag are inputs.
- The file-system actions (`mkdir`, reading and testing `yarn.lock`) are inputs or recorded effects. Nothing is read or written.
- `RootedPath.join_within_root` is plain concatenation with "/" (`JoinPath`). Path normalisation and the escape-from-root error are not modelled.
- `get_tarball_mirror_name` and `get_git_tarball_mirror_name` are not part of this model. They are the two functions of the `MirrorNaming` parameter.
- `YarnVersionGate.VerifyCorepackYarnVersion`: versions are `major.minor.patch` triples of naturals. Prerelease and build tags, and `VersionsRange`'s treatment of them, are not modelled.
- `Sbom.CreateSbomComponents`: `PropertySet.to_properties` is kept as the `PropertySet` value. Its serialisation into name/value pairs is not modelled.
- `YarnClassic.FetchYarnSource`: `RequestOutput.from_obj_list` is not part of this model. The output is the plain record of its three arguments, and any normalisation `from_obj_list` applies to the component list is not captured.
- A resolved package is reduced to its kind, name, version, dev flag, url or path (`locator`), integrity and purl. The purl is a field, because its derivation lives in the resolver.
- Logging and the wording of error messages are not modelled. Errors carry only the data the messages print.
- The collision error's count follows the code: it is the size of the whole group sharing the tarball name, not a count of only the conflicting entries.
