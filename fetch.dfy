/**
 * The yarn-classic prefetch orchestrator. For every requested yarn package
 * directory, in order: validate the checkout, make sure the offline mirror
 * directory exists, check the yarn version corepack installs, run
 * `yarn install`, resolve the packages, check the mirror for collisions and
 * emit the SBOM components. The first failure ends the whole request.
 *
 * Everything the outside world decides (the files in the checkout, the yarn
 * version, whether `yarn install` succeeds, what the resolver returns) is an
 * input, `ProjectFacts`; every action on the outside world is recorded, in
 * order, as an `Effect`.
 */
module YarnClassic {
  import opened Wrappers
  import opened YarnErrors
  import opened YarnVersion
  import opened YarnVersionGate
  import opened Packages
  import opened Repository
  import opened Environment
  import opened MirrorCollisions
  import opened Sbom

  /** The arguments of the `yarn install` run. */
  const InstallArgs := ["install", "--disable-pnp", "--frozen-lockfile", "--ignore-engines", "--no-default-rc", "--non-interactive"]

  /** A request: the checkout, the output directory and the yarn package paths within the checkout. */
  datatype Request = Request(sourceDir: string, outputDir: string, yarnPackages: seq<string>)

  /** What the outside world answers for one requested package directory. */
  datatype ProjectFacts = ProjectFacts(
    lockfileExists: bool,
    lockfileText: string,
    isPnpInstall: bool,
    installedYarn: Version,
    install: Outcome<string>,
    resolved: seq<Package>)

  /** An action on the outside world, tagged with the index of the requested package it was done for. */
  datatype Effect =
    | EnsureMirrorDir(project: nat, path: string)
    | QueryYarnVersion(project: nat, sourceDir: string, env: Env)
    | RunYarnInstall(project: nat, sourceDir: string, args: seq<string>, env: Env)
    | ResolvePackages(project: nat, sourceDir: string, mirrorDir: string)
  {
    /** Both yarn invocations start a subprocess. */
    predicate IsSubprocess() {
      QueryYarnVersion? || RunYarnInstall?
    }
  }

  datatype RequestOutput = RequestOutput(
    components: seq<Component>,
    buildEnvironmentVariables: seq<EnvironmentVariable>,
    projectFiles: seq<string>)

  /** The project for the `i`-th requested package: its directory inside the checkout and the facts about it. */
  function ProjectOf(request: Request, i: nat, facts: ProjectFacts): (p: Project)
    requires i < |request.yarnPackages|
    ensures p.sourceDir == JoinPath(request.sourceDir, request.yarnPackages[i])
    ensures p.lockfileExists == facts.lockfileExists && p.isPnpInstall == facts.isPnpInstall
  {
    Project(JoinPath(request.sourceDir, request.yarnPackages[i]), facts.lockfileExists, facts.lockfileText, facts.isPnpInstall)
  }

  /**
   * What processing one validated project yields: the version error, the
   * install error or the collision error, in that order, or the components.
   */
  function ResolveOutcome(facts: ProjectFacts, naming: MirrorNaming): Result<seq<Component>, Error> {
    if VerifyCorepackYarnVersion(facts.installedYarn).Fail? then Failure(VerifyCorepackYarnVersion(facts.installedYarn).error)
    else if facts.install.Fail? then Failure(YarnCommandFailed(facts.install.error))
    else if CollisionCheck(facts.resolved, naming).Fail? then Failure(CollisionCheck(facts.resolved, naming).error)
    else Success(SbomComponents(facts.resolved))
  }

  /** What one requested package yields: its validation error, or what resolving it yields. */
  function ProjectOutcome(request: Request, i: nat, facts: ProjectFacts, naming: MirrorNaming): Result<seq<Component>, Error>
    requires i < |request.yarnPackages|
  {
    var check := VerifyRepository(ProjectOf(request, i, facts));
    if check.Fail? then Failure(check.error) else ResolveOutcome(facts, naming)
  }

  /**
   * A requested package yields components only when its checkout is valid,
   * corepack installed a supported yarn, `yarn install` succeeded and the
   * mirror is consistent; then it yields one component per resolved package.
   * A validation error takes precedence over every later error, and a version
   * error over the install and collision errors.
   */
  lemma ProjectOutcomeSpec(request: Request, i: nat, facts: ProjectFacts, naming: MirrorNaming)
    requires i < |request.yarnPackages|
    ensures var r := ProjectOutcome(request, i, facts, naming);
      && (r.Success? <==>
            && VerifyRepository(ProjectOf(request, i, facts)).Pass?
            && VerifyCorepackYarnVersion(facts.installedYarn).Pass?
            && facts.install.Pass?
            && MirrorConsistent(facts.resolved, naming))
      && (r.Success? ==> r.value == SbomComponents(facts.resolved))
      && (VerifyRepository(ProjectOf(request, i, facts)).Fail? ==>
            r == Failure(VerifyRepository(ProjectOf(request, i, facts)).error))
      && (VerifyRepository(ProjectOf(request, i, facts)).Pass? && VerifyCorepackYarnVersion(facts.installedYarn).Fail? ==>
            r == Failure(YarnVersionMismatch(facts.installedYarn)))
  {
    CollisionCheckIsConsistency(facts.resolved, naming);
  }

  /** The outcome of every requested package, in request order. */
  function ProjectOutcomes(request: Request, facts: seq<ProjectFacts>, naming: MirrorNaming): (outcomes: seq<Result<seq<Component>, Error>>)
    requires |facts| == |request.yarnPackages|
    ensures |outcomes| == |facts|
    ensures forall i :: 0 <= i < |facts| ==> outcomes[i] == ProjectOutcome(request, i, facts[i], naming)
  {
    seq(|facts|, i requires 0 <= i < |facts| => ProjectOutcome(request, i, facts[i], naming))
  }

  /** The components of the first `n` outcomes one after the other, or the first error among them. */
  function Collect(outcomes: seq<Result<seq<Component>, Error>>, n: nat): Result<seq<Component>, Error>
    requires n <= |outcomes|
  {
    if n == 0 then Success([])
    else
      match Collect(outcomes, n - 1)
      case Failure(e) => Failure(e)
      case Success(components) =>
        match outcomes[n - 1]
        case Failure(e) => Failure(e)
        case Success(more) => Success(components + more)
  }

  /** Outcome `f` is the first failure, and it fails with `error`. */
  ghost predicate FirstFailureAt(outcomes: seq<Result<seq<Component>, Error>>, f: nat, error: Error) {
    && f < |outcomes|
    && (forall i :: 0 <= i < f ==> outcomes[i].Success?)
    && outcomes[f] == Failure(error)
  }

  /** Collecting succeeds exactly when every outcome is a success. */
  lemma {:induction false} CollectSucceedsIffAllDo(outcomes: seq<Result<seq<Component>, Error>>, n: nat)
    requires n <= |outcomes|
    ensures Collect(outcomes, n).Success? <==> forall i :: 0 <= i < n ==> outcomes[i].Success?
  {
    if n > 0 {
      CollectSucceedsIffAllDo(outcomes, n - 1);
    }
  }

  /** A failed collection reports the error of the first failing outcome. */
  lemma {:induction false} CollectFailsWithFirstError(outcomes: seq<Result<seq<Component>, Error>>, n: nat)
    requires n <= |outcomes|
    requires Collect(outcomes, n).Failure?
    ensures exists f: nat :: FirstFailureAt(outcomes, f, Collect(outcomes, n).error) && f < n
  {
    if Collect(outcomes, n - 1).Failure? {
      CollectFailsWithFirstError(outcomes, n - 1);
    } else {
      CollectSucceedsIffAllDo(outcomes, n - 1);
      assert FirstFailureAt(outcomes, n - 1, Collect(outcomes, n).error);
    }
  }

  /** The resolved packages of the first `n` requested packages, one list after the other. */
  function AllResolved(facts: seq<ProjectFacts>, n: nat): seq<Package>
    requires n <= |facts|
  {
    if n == 0 then [] else AllResolved(facts, n - 1) + facts[n - 1].resolved
  }

  /**
   * A successful request's components are the components of all resolved
   * packages, request order first, then resolver order within a project.
   */
  lemma {:induction false} CollectedComponentsAreAllResolved(
    request: Request, facts: seq<ProjectFacts>, naming: MirrorNaming, n: nat)
    requires n <= |facts| == |request.yarnPackages|
    requires Collect(ProjectOutcomes(request, facts, naming), n).Success?
    ensures Collect(ProjectOutcomes(request, facts, naming), n).value == SbomComponents(AllResolved(facts, n))
  {
    if n > 0 {
      var outcomes := ProjectOutcomes(request, facts, naming);
      ProjectOutcomeSpec(request, n - 1, facts[n - 1], naming);
      assert Collect(outcomes, n - 1).Success? && outcomes[n - 1].Success?;
      CollectedComponentsAreAllResolved(request, facts, naming, n - 1);
      SbomComponentsAppend(AllResolved(facts, n - 1), facts[n - 1].resolved);
    }
  }

  // ---------------------------------------------------------------------------
  // The actions on the outside world, as specified.

  /**
   * How far the outside world lets one requested package get: its directory
   * inside the checkout, whether that checkout validates, whether corepack
   * installed a supported yarn, and whether `yarn install` succeeded.
   */
  datatype Progress = Progress(sourceDir: string, validated: bool, versionSupported: bool, installed: bool)

  /** The progress of the `i`-th requested package, as its facts decide it. */
  function ProgressOf(request: Request, i: nat, facts: ProjectFacts): Progress
    requires i < |request.yarnPackages|
  {
    var project := ProjectOf(request, i, facts);
    Progress(
      project.sourceDir,
      VerifyRepository(project).Pass?,
      VerifyCorepackYarnVersion(facts.installedYarn).Pass?,
      facts.install.Pass?)
  }

  /** The progress of every requested package, in request order. */
  function Progresses(request: Request, facts: seq<ProjectFacts>): (progress: seq<Progress>)
    requires |facts| == |request.yarnPackages|
    ensures |progress| == |facts|
    ensures forall i :: 0 <= i < |facts| ==> progress[i] == ProgressOf(request, i, facts[i])
  {
    seq(|facts|, i requires 0 <= i < |facts| => ProgressOf(request, i, facts[i]))
  }

  /**
   * The actions `_resolve_yarn_project` takes for one validated project: query
   * the yarn version in the prefetch environment `env`; only with a supported
   * yarn, run `yarn install` with the fixed arguments in that environment; only
   * when that succeeds, call the resolver on the offline mirror directory.
   */
  function ResolveEffects(i: nat, sourceDir: string, versionSupported: bool, installed: bool, env: Env, mirrorDir: string): seq<Effect> {
    var query := QueryYarnVersion(i, sourceDir, env);
    var install := RunYarnInstall(i, sourceDir, InstallArgs, env);
    if !versionSupported then [query]
    else if !installed then [query, install]
    else [query, install, ResolvePackages(i, sourceDir, mirrorDir)]
  }

  /**
   * The actions for the `i`-th requested package: none when its checkout fails
   * validation, otherwise the mirror directory first and then the project's own.
   */
  function ProjectEffects(i: nat, p: Progress, env: Env, mirrorDir: string): seq<Effect> {
    if !p.validated then []
    else [EnsureMirrorDir(i, mirrorDir)] + ResolveEffects(i, p.sourceDir, p.versionSupported, p.installed, env, mirrorDir)
  }

  /** The actions for every requested package, one log per package, in request order. */
  function PackageLogs(progress: seq<Progress>, env: Env, mirrorDir: string): (logs: seq<seq<Effect>>)
    ensures |logs| == |progress|
    ensures forall i :: 0 <= i < |progress| ==> logs[i] == ProjectEffects(i, progress[i], env, mirrorDir)
  {
    seq(|progress|, i requires 0 <= i < |progress| => ProjectEffects(i, progress[i], env, mirrorDir))
  }

  /** The logs of the first `n` packages, one after another. */
  function EffectsUpTo(logs: seq<seq<Effect>>, n: nat): seq<Effect>
    requires n <= |logs|
  {
    if n == 0 then [] else EffectsUpTo(logs, n - 1) + logs[n - 1]
  }

  /**
   * The actions for the first `n` packages of a request, in the request's
   * prefetch environment and with its offline mirror directory.
   */
  function RequestLog(request: Request, facts: seq<ProjectFacts>, n: nat): seq<Effect>
    requires n <= |facts| == |request.yarnPackages|
  {
    EffectsUpTo(PackageLogs(Progresses(request, facts), PrefetchEnvironment(request.outputDir), JoinPath(request.outputDir, MirrorDir)), n)
  }

  /**
   * `_resolve_yarn_project`: query the yarn version in the prefetch
   * environment, run `yarn install` in it, resolve the packages against the
   * mirror, check the mirror for collisions and emit the components. Each
   * external step is done only when the one before it succeeded.
   */
  method ResolveYarnProject(i: nat, project: Project, facts: ProjectFacts, outputDir: string, naming: MirrorNaming)
    returns (r: Result<seq<Component>, Error>, effects: seq<Effect>)
    ensures r == ResolveOutcome(facts, naming)
    ensures effects == ResolveEffects(
      i, project.sourceDir, VerifyCorepackYarnVersion(facts.installedYarn).Pass?, facts.install.Pass?,
      PrefetchEnvironment(outputDir), JoinPath(outputDir, MirrorDir))
  {
    var prefetchEnv := PrefetchEnvironment(outputDir);
    effects := [QueryYarnVersion(i, project.sourceDir, prefetchEnv)];
    var versionCheck := VerifyCorepackYarnVersion(facts.installedYarn);
    if versionCheck.Fail? {
      return Failure(versionCheck.error), effects;
    }
    effects := effects + [RunYarnInstall(i, project.sourceDir, InstallArgs, prefetchEnv)];
    if facts.install.Fail? {
      return Failure(YarnCommandFailed(facts.install.error)), effects;
    }
    effects := effects + [ResolvePackages(i, project.sourceDir, JoinPath(outputDir, MirrorDir))];
    var packages := facts.resolved;
    var collisionCheck := VerifyNoOfflineMirrorCollisions(packages, naming);
    if collisionCheck.Fail? {
      return Failure(collisionCheck.error), effects;
    }
    var components := CreateSbomComponents(packages);
    return Success(components), effects;
  }

  /**
   * The actions for one requested package, step by step: nothing when it fails
   * validation; otherwise the mirror directory, then `yarn --version` in the
   * package's directory inside the checkout, then `yarn install` exactly when
   * the version is supported, then the resolver exactly when the install also
   * succeeded.
   */
  lemma ProjectEffectsSpec(request: Request, facts: seq<ProjectFacts>, i: nat)
    requires i < |facts| == |request.yarnPackages|
    ensures var mirrorDir := JoinPath(request.outputDir, MirrorDir);
      var env := PrefetchEnvironment(request.outputDir);
      var effects := ProjectEffects(i, ProgressOf(request, i, facts[i]), env, mirrorDir);
      var dir := JoinPath(request.sourceDir, request.yarnPackages[i]);
      var versionOk := VerifyCorepackYarnVersion(facts[i].installedYarn).Pass?;
      && (effects == [] <==> VerifyRepository(ProjectOf(request, i, facts[i])).Fail?)
      && (effects != [] ==>
            && 2 <= |effects| <= 4
            && effects[0] == EnsureMirrorDir(i, mirrorDir)
            && effects[1] == QueryYarnVersion(i, dir, env)
            && (|effects| > 2 <==> versionOk)
            && (|effects| > 2 ==> effects[2] == RunYarnInstall(i, dir, InstallArgs, env))
            && (|effects| > 3 <==> versionOk && facts[i].install.Pass?)
            && (|effects| > 3 ==> effects[3] == ResolvePackages(i, dir, mirrorDir)))
  {
  }

  // ---------------------------------------------------------------------------
  // Properties of an effect log.

  /** Every effect is for one of the first `bound` packages, and that package passed validation. */
  ghost predicate OnlyValidated(effects: seq<Effect>, progress: seq<Progress>, bound: nat) {
    forall e :: e in effects ==> e.project < bound && e.project < |progress| && progress[e.project].validated
  }

  /** `yarn install` runs only with a supported yarn, the fixed arguments and the environment `env`. */
  ghost predicate HermeticInstalls(effects: seq<Effect>, progress: seq<Progress>, env: Env) {
    forall e :: e in effects && e.RunYarnInstall? ==>
      && e.project < |progress|
      && progress[e.project].versionSupported
      && e.args == InstallArgs
      && e.env == env
  }

  /** The effects of the packages come one package after another, in request order. */
  ghost predicate InRequestOrder(effects: seq<Effect>) {
    forall j, k :: 0 <= j < k < |effects| ==> effects[j].project <= effects[k].project
  }

  /** For every package, its mirror directory is ensured before any subprocess runs for it. */
  ghost predicate MirrorDirBeforeSubprocess(effects: seq<Effect>, mirrorDir: string) {
    forall k :: 0 <= k < |effects| && effects[k].IsSubprocess() ==>
      exists j :: 0 <= j < k && effects[j] == EnsureMirrorDir(effects[k].project, mirrorDir)
  }

  /**
   * A log of a request with `progress` as its packages' progress: it acts only
   * for validated packages, runs only hermetic installs in `env`, comes in
   * request order and ensures `mirrorDir` before any yarn subprocess.
   */
  ghost predicate SoundLog(effects: seq<Effect>, progress: seq<Progress>, env: Env, mirrorDir: string) {
    && OnlyValidated(effects, progress, |progress|)
    && HermeticInstalls(effects, progress, env)
    && InRequestOrder(effects)
    && MirrorDirBeforeSubprocess(effects, mirrorDir)
  }

  /**
   * What one package's log guarantees on its own: every action is tagged with
   * the package, and the package validated; an install has a supported yarn,
   * the fixed arguments and the environment `env`; and a subprocess is never
   * first, because the log starts by ensuring the mirror directory.
   */
  ghost predicate PackageLogSound(log: seq<Effect>, i: nat, p: Progress, env: Env, mirrorDir: string) {
    && (forall e :: e in log ==> e.project == i && p.validated)
    && (forall e :: e in log && e.RunYarnInstall? ==> p.versionSupported && e.args == InstallArgs && e.env == env)
    && (forall k :: 0 <= k < |log| && log[k].IsSubprocess() ==> 0 < k && log[0] == EnsureMirrorDir(i, mirrorDir))
  }

  /** The specified actions for one package are sound, and there are some exactly when it validated. */
  lemma ProjectEffectsSound(i: nat, p: Progress, env: Env, mirrorDir: string)
    ensures var effects := ProjectEffects(i, p, env, mirrorDir);
      && (effects == [] <==> !p.validated)
      && PackageLogSound(effects, i, p, env, mirrorDir)
  {
    var effects := ProjectEffects(i, p, env, mirrorDir);
    if p.validated {
      var m := EnsureMirrorDir(i, mirrorDir);
      var q := QueryYarnVersion(i, p.sourceDir, env);
      var ins := RunYarnInstall(i, p.sourceDir, InstallArgs, env);
      var res := ResolvePackages(i, p.sourceDir, mirrorDir);
      if !p.versionSupported {
        assert effects == [m, q];
      } else if !p.installed {
        assert effects == [m, q, ins];
      } else {
        assert effects == [m, q, ins, res];
      }
    }
  }

  /** Every package log of the first `n` is sound for its package. */
  ghost predicate LogsSound(logs: seq<seq<Effect>>, progress: seq<Progress>, env: Env, mirrorDir: string, n: nat)
    requires n <= |logs| && n <= |progress|
  {
    forall j :: 0 <= j < n ==> PackageLogSound(logs[j], j, progress[j], env, mirrorDir)
  }

  /** Effects confined to the first `bound` packages are confined to any larger prefix. */
  lemma OnlyValidatedWidens(effects: seq<Effect>, progress: seq<Progress>, bound: nat, wider: nat)
    requires bound <= wider
    requires OnlyValidated(effects, progress, bound)
    ensures OnlyValidated(effects, progress, wider)
  {
  }

  /** Sound logs of the first `n` packages act only for validated packages among them. */
  lemma {:induction false} LogOnlyValidated(logs: seq<seq<Effect>>, progress: seq<Progress>, env: Env, mirrorDir: string, n: nat)
    requires n <= |logs| && n <= |progress|
    requires LogsSound(logs, progress, env, mirrorDir, n)
    ensures OnlyValidated(EffectsUpTo(logs, n), progress, n)
  {
    if n > 0 {
      LogOnlyValidated(logs, progress, env, mirrorDir, n - 1);
      var before := EffectsUpTo(logs, n - 1);
      var more := logs[n - 1];
      assert PackageLogSound(more, n - 1, progress[n - 1], env, mirrorDir);
      assert forall e :: e in before + more ==> e in before || e in more;
    }
  }

  /** Sound logs of the first `n` packages run only hermetic installs. */
  lemma {:induction false} LogHermetic(logs: seq<seq<Effect>>, progress: seq<Progress>, env: Env, mirrorDir: string, n: nat)
    requires n <= |logs| && n <= |progress|
    requires LogsSound(logs, progress, env, mirrorDir, n)
    ensures HermeticInstalls(EffectsUpTo(logs, n), progress, env)
  {
    if n > 0 {
      LogHermetic(logs, progress, env, mirrorDir, n - 1);
      var before := EffectsUpTo(logs, n - 1);
      var more := logs[n - 1];
      assert PackageLogSound(more, n - 1, progress[n - 1], env, mirrorDir);
      assert forall e :: e in before + more ==> e in before || e in more;
    }
  }

  /** Sound logs of the first `n` packages come one package after another. */
  lemma {:induction false} LogInRequestOrder(logs: seq<seq<Effect>>, progress: seq<Progress>, env: Env, mirrorDir: string, n: nat)
    requires n <= |logs| && n <= |progress|
    requires LogsSound(logs, progress, env, mirrorDir, n)
    ensures InRequestOrder(EffectsUpTo(logs, n))
  {
    if n > 0 {
      LogInRequestOrder(logs, progress, env, mirrorDir, n - 1);
      LogOnlyValidated(logs, progress, env, mirrorDir, n - 1);
      var before := EffectsUpTo(logs, n - 1);
      var more := logs[n - 1];
      assert PackageLogSound(more, n - 1, progress[n - 1], env, mirrorDir);
      var all := before + more;
      forall j, k | 0 <= j < k < |all| ensures all[j].project <= all[k].project {
        if k >= |before| {
          assert all[k] == more[k - |before|] && all[k] in more;
          if j >= |before| { assert all[j] == more[j - |before|] && all[j] in more; } else { assert all[j] in before; }
        } else {
          assert all[j] == before[j] && all[k] == before[k];
        }
      }
    }
  }

  /** In sound logs of the first `n` packages, each package's mirror directory precedes its subprocesses. */
  lemma {:induction false} LogMirrorDirFirst(logs: seq<seq<Effect>>, progress: seq<Progress>, env: Env, mirrorDir: string, n: nat)
    requires n <= |logs| && n <= |progress|
    requires LogsSound(logs, progress, env, mirrorDir, n)
    ensures MirrorDirBeforeSubprocess(EffectsUpTo(logs, n), mirrorDir)
  {
    if n > 0 {
      LogMirrorDirFirst(logs, progress, env, mirrorDir, n - 1);
      var before := EffectsUpTo(logs, n - 1);
      var more := logs[n - 1];
      assert PackageLogSound(more, n - 1, progress[n - 1], env, mirrorDir);
      var all := before + more;
      forall k | 0 <= k < |all| && all[k].IsSubprocess()
        ensures exists j :: 0 <= j < k && all[j] == EnsureMirrorDir(all[k].project, mirrorDir)
      {
        if k < |before| {
          assert all[k] == before[k];
          var j :| 0 <= j < k && before[j] == EnsureMirrorDir(before[k].project, mirrorDir);
          assert all[j] == before[j];
        } else {
          var m := k - |before|;
          assert all[k] == more[m] && more[m].IsSubprocess() && more[m] in more;
          assert all[|before|] == more[0];
        }
      }
    }
  }

  /**
   * The specified log of the first `n` packages acts only for validated
   * packages among them, in request order, ensures the mirror directory before
   * any yarn subprocess, and runs only hermetic installs.
   */
  lemma EffectLogProperties(progress: seq<Progress>, env: Env, mirrorDir: string, n: nat)
    requires n <= |progress|
    ensures var effects := EffectsUpTo(PackageLogs(progress, env, mirrorDir), n);
      && OnlyValidated(effects, progress, n)
      && HermeticInstalls(effects, progress, env)
      && InRequestOrder(effects)
      && MirrorDirBeforeSubprocess(effects, mirrorDir)
  {
    var logs := PackageLogs(progress, env, mirrorDir);
    forall j | 0 <= j < n ensures PackageLogSound(logs[j], j, progress[j], env, mirrorDir) {
      ProjectEffectsSound(j, progress[j], env, mirrorDir);
    }
    LogOnlyValidated(logs, progress, env, mirrorDir, n);
    LogHermetic(logs, progress, env, mirrorDir, n);
    LogInRequestOrder(logs, progress, env, mirrorDir, n);
    LogMirrorDirFirst(logs, progress, env, mirrorDir, n);
  }

  // ---------------------------------------------------------------------------
  // The orchestrator.

  /**
   * One iteration of `fetch_yarn_source`'s loop: validate the requested
   * package's project and, only if it passes, ensure the mirror directory and
   * resolve the project.
   */
  method FetchRequestedPackage(request: Request, facts: seq<ProjectFacts>, naming: MirrorNaming, i: nat)
    returns (r: Result<seq<Component>, Error>, effects: seq<Effect>)
    requires i < |facts| == |request.yarnPackages|
    ensures r == ProjectOutcome(request, i, facts[i], naming)
    ensures effects == ProjectEffects(
      i, ProgressOf(request, i, facts[i]), PrefetchEnvironment(request.outputDir), JoinPath(request.outputDir, MirrorDir))
  {
    var project := ProjectOf(request, i, facts[i]);
    var check := VerifyRepository(project);
    if check.Fail? {
      return Failure(check.error), [];
    }
    var result, resolveEffects := ResolveYarnProject(i, project, facts[i], request.outputDir, naming);
    effects := [EnsureMirrorDir(i, JoinPath(request.outputDir, MirrorDir))] + resolveEffects;
    return result, effects;
  }

  /**
   * The request stopped at package `f` with `error`: the earlier packages
   * succeeded, and the log holds exactly the actions for packages `0..f`, so
   * nothing was done for a later package, and nothing at all for `f` when it
   * failed validation.
   */
  ghost predicate StoppedAt(
    request: Request, facts: seq<ProjectFacts>, naming: MirrorNaming, effects: seq<Effect>, f: nat, error: Error)
    requires |facts| == |request.yarnPackages|
  {
    && FirstFailureAt(ProjectOutcomes(request, facts, naming), f, error)
    && effects == RequestLog(request, facts, f + 1)
    && OnlyValidated(effects, Progresses(request, facts), f + 1)
    && (VerifyRepository(ProjectOf(request, f, facts[f])).Fail? ==> OnlyValidated(effects, Progresses(request, facts), f))
  }

  /** A successful prefix followed by a failure: that failure is the first, and not every outcome succeeds. */
  lemma CollectStopsAt(outcomes: seq<Result<seq<Component>, Error>>, i: nat, error: Error)
    requires i < |outcomes|
    requires Collect(outcomes, i).Success? && outcomes[i] == Failure(error)
    ensures FirstFailureAt(outcomes, i, error)
    ensures !forall j :: 0 <= j < |outcomes| ==> outcomes[j].Success?
  {
    CollectSucceedsIffAllDo(outcomes, i);
  }

  /**
   * The log of packages `0..i` keeps every property, and holds nothing for
   * package `i` when it failed validation.
   */
  lemma LogStopsAt(progress: seq<Progress>, env: Env, mirrorDir: string, i: nat)
    requires i < |progress|
    ensures var effects := EffectsUpTo(PackageLogs(progress, env, mirrorDir), i + 1);
      && OnlyValidated(effects, progress, i + 1)
      && (!progress[i].validated ==> OnlyValidated(effects, progress, i))
      && SoundLog(effects, progress, env, mirrorDir)
  {
    var logs := PackageLogs(progress, env, mirrorDir);
    EffectLogProperties(progress, env, mirrorDir, i + 1);
    if !progress[i].validated {
      ProjectEffectsSound(i, progress[i], env, mirrorDir);
      EffectLogProperties(progress, env, mirrorDir, i);
      assert EffectsUpTo(logs, i + 1) == EffectsUpTo(logs, i) + [];
    }
    OnlyValidatedWidens(EffectsUpTo(logs, i + 1), progress, i + 1, |progress|);
  }

  /**
   * What `fetch_yarn_source` promises about its result `r` and its log
   * `effects`. The request succeeds exactly when every package does; then its
   * output is the SBOM of all resolved packages in order, the build
   * environment and no project files, and its log holds the actions for every
   * package. On failure it stopped at the first failing package, with that
   * package's error. In every case the log is sound.
   */
  ghost predicate FetchSpec(
    request: Request, facts: seq<ProjectFacts>, naming: MirrorNaming, r: Result<RequestOutput, Error>, effects: seq<Effect>)
    requires |facts| == |request.yarnPackages|
  {
    && (r.Success? <==> forall i :: 0 <= i < |facts| ==> ProjectOutcome(request, i, facts[i], naming).Success?)
    && (r.Success? ==>
          && r.value == RequestOutput(SbomComponents(AllResolved(facts, |facts|)), BuildEnvironmentVariables(), [])
          && effects == RequestLog(request, facts, |facts|))
    && (r.Failure? ==> exists f: nat :: StoppedAt(request, facts, naming, effects, f, r.error))
    && SoundLog(effects, Progresses(request, facts), PrefetchEnvironment(request.outputDir), JoinPath(request.outputDir, MirrorDir))
  }

  /**
   * Stopping at the first failing package after a successful prefix keeps the
   * promise: the request fails with that package's error.
   */
  lemma StopAt(request: Request, facts: seq<ProjectFacts>, naming: MirrorNaming, i: nat, error: Error)
    requires i < |facts| == |request.yarnPackages|
    requires Collect(ProjectOutcomes(request, facts, naming), i).Success?
    requires ProjectOutcome(request, i, facts[i], naming) == Failure(error)
    ensures FetchSpec(request, facts, naming, Failure(error), RequestLog(request, facts, i + 1))
  {
    var outcomes := ProjectOutcomes(request, facts, naming);
    var progress := Progresses(request, facts);
    CollectStopsAt(outcomes, i, error);
    LogStopsAt(progress, PrefetchEnvironment(request.outputDir), JoinPath(request.outputDir, MirrorDir), i);
    assert progress[i].validated == VerifyRepository(ProjectOf(request, i, facts[i])).Pass?;
    assert StoppedAt(request, facts, naming, RequestLog(request, facts, i + 1), i, error);
  }

  /** The log of all packages is sound. */
  lemma LogFinished(progress: seq<Progress>, env: Env, mirrorDir: string)
    ensures SoundLog(EffectsUpTo(PackageLogs(progress, env, mirrorDir), |progress|), progress, env, mirrorDir)
  {
    EffectLogProperties(progress, env, mirrorDir, |progress|);
  }

  /** Every package succeeded: the request's components are those of all resolved packages. */
  lemma AllSucceeded(request: Request, facts: seq<ProjectFacts>, naming: MirrorNaming, components: seq<Component>)
    requires |facts| == |request.yarnPackages|
    requires Collect(ProjectOutcomes(request, facts, naming), |facts|) == Success(components)
    ensures forall j :: 0 <= j < |facts| ==> ProjectOutcome(request, j, facts[j], naming).Success?
    ensures components == SbomComponents(AllResolved(facts, |facts|))
  {
    CollectSucceedsIffAllDo(ProjectOutcomes(request, facts, naming), |facts|);
    CollectedComponentsAreAllResolved(request, facts, naming, |facts|);
  }

  /** Finishing after every package succeeded keeps the promise. */
  lemma FinishAll(request: Request, facts: seq<ProjectFacts>, naming: MirrorNaming, components: seq<Component>)
    requires |facts| == |request.yarnPackages|
    requires Collect(ProjectOutcomes(request, facts, naming), |facts|) == Success(components)
    ensures FetchSpec(
      request, facts, naming, Success(RequestOutput(components, BuildEnvironmentVariables(), [])), RequestLog(request, facts, |facts|))
  {
    AllSucceeded(request, facts, naming, components);
    LogFinished(Progresses(request, facts), PrefetchEnvironment(request.outputDir), JoinPath(request.outputDir, MirrorDir));
  }

  /** One more successful package extends the collected components by its own. */
  lemma CollectStep(outcomes: seq<Result<seq<Component>, Error>>, i: nat, components: seq<Component>, more: seq<Component>)
    requires i < |outcomes|
    requires Collect(outcomes, i) == Success(components) && outcomes[i] == Success(more)
    ensures Collect(outcomes, i + 1) == Success(components + more)
  {
  }

  /**
   * `fetch_yarn_source`: process the requested packages one after another,
   * validating each before anything else is done for it, and collect their
   * components; the first failure ends the request.
   */
  method FetchYarnSource(request: Request, facts: seq<ProjectFacts>, naming: MirrorNaming)
    returns (r: Result<RequestOutput, Error>, effects: seq<Effect>)
    requires |facts| == |request.yarnPackages|
    ensures FetchSpec(request, facts, naming, r, effects)
  {
    var components: seq<Component> := [];
    effects := [];
    for i := 0 to |facts|
      invariant Collect(ProjectOutcomes(request, facts, naming), i) == Success(components)
      invariant effects == RequestLog(request, facts, i)
    {
      var result, more := FetchRequestedPackage(request, facts, naming, i);
      effects := effects + more;
      if result.Failure? {
        StopAt(request, facts, naming, i, result.error);
        return Failure(result.error), effects;
      }
      CollectStep(ProjectOutcomes(request, facts, naming), i, components, result.value);
      components := components + result.value;
    }
    FinishAll(request, facts, naming, components);
    return Success(RequestOutput(components, BuildEnvironmentVariables(), [])), effects;
  }
}
