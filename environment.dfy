/**
 * The two environment-variable sets: the one injected into the prefetch's
 * yarn processes, and the one emitted for the later offline build.
 */
module Environment {

  /** The offline mirror's location relative to the request's output directory. */
  const MirrorDir := "deps/yarn-classic"

  const YarnNetworkTimeoutMilliseconds := 600000

  /** The placeholder the build environment uses for the output directory. */
  const OutputDirPlaceholder := "${output_dir}"

  const DownloadPromptVar := "COREPACK_ENABLE_DOWNLOAD_PROMPT"
  const ProjectSpecVar := "COREPACK_ENABLE_PROJECT_SPEC"
  const IgnorePathVar := "YARN_IGNORE_PATH"
  const IgnoreScriptsVar := "YARN_IGNORE_SCRIPTS"
  const NetworkTimeoutVar := "YARN_NETWORK_TIMEOUT"
  const MirrorVar := "YARN_YARN_OFFLINE_MIRROR"
  const PruningVar := "YARN_YARN_OFFLINE_MIRROR_PRUNING"

  /** The seven variable names have seven different lengths, so they are pairwise distinct. */
  lemma VariableNameLengths()
    ensures |DownloadPromptVar| == 31 && |ProjectSpecVar| == 28 && |IgnorePathVar| == 16
    ensures |IgnoreScriptsVar| == 19 && |NetworkTimeoutVar| == 20 && |MirrorVar| == 24 && |PruningVar| == 32
  {
  }

  type Env = map<string, string>

  datatype EnvironmentVariable = EnvironmentVariable(name: string, value: string)

  /** A path inside the output directory. Path normalisation and root-escape checks are not modelled. */
  function JoinPath(dir: string, relative: string): string {
    dir + "/" + relative
  }

  /** The number a string of decimal digits denotes, most significant digit first. */
  function DigitsValue(s: string): nat
    requires forall k :: 0 <= k < |s| ==> '0' <= s[k] <= '9'
  {
    if |s| == 0 then 0 else DigitsValue(s[..|s| - 1]) * 10 + (s[|s| - 1] - '0') as nat
  }

  /** Decimal digits of a natural number, most significant first, as an f-string renders it. */
  function Decimal(n: nat): (s: string)
    ensures |s| >= 1 && forall k :: 0 <= k < |s| ==> '0' <= s[k] <= '9'
    decreases n
  {
    var digit := ['0' + (n % 10) as char];
    if n < 10 then digit else Decimal(n / 10) + digit
  }

  /** The rendering denotes `n` and has no leading zero, except in "0" itself. */
  lemma {:induction false} DecimalDenotes(n: nat)
    ensures DigitsValue(Decimal(n)) == n
    ensures Decimal(n)[0] == '0' <==> n == 0
    decreases n
  {
    if n >= 10 {
      DecimalDenotes(n / 10);
      var s := Decimal(n);
      assert s[..|s| - 1] == Decimal(n / 10);
    }
  }

  /** The network timeout renders as the decimal string "600000". */
  lemma TimeoutRendering()
    ensures Decimal(YarnNetworkTimeoutMilliseconds) == "600000"
  {
    assert Decimal(6) == "6";
    assert Decimal(60) == Decimal(6) + "0";
    assert Decimal(600) == Decimal(60) + "0";
    assert Decimal(6000) == Decimal(600) + "0";
    assert Decimal(60000) == Decimal(6000) + "0";
    assert Decimal(600000) == Decimal(60000) + "0";
  }

  /** The variables added in order; a later variable overrides an earlier one of the same name, as in a dict display. */
  function AsMap(vars: seq<EnvironmentVariable>): Env {
    if |vars| == 0 then map[] else AsMap(vars[..|vars| - 1])[vars[|vars| - 1].name := vars[|vars| - 1].value]
  }

  /** The map holds exactly the variables' names. */
  lemma {:induction false} AsMapKeys(vars: seq<EnvironmentVariable>)
    ensures forall name :: name in AsMap(vars) <==> exists j :: 0 <= j < |vars| && vars[j].name == name
  {
    if |vars| > 0 {
      var init := vars[..|vars| - 1];
      AsMapKeys(init);
      assert AsMap(vars) == AsMap(init)[vars[|vars| - 1].name := vars[|vars| - 1].value];
      forall name | name in AsMap(vars) ensures exists j :: 0 <= j < |vars| && vars[j].name == name {
        if name != vars[|vars| - 1].name {
          assert name in AsMap(init);
          var j :| 0 <= j < |init| && init[j].name == name;
          assert vars[j] == init[j];
        }
      }
      forall name | exists j :: 0 <= j < |vars| && vars[j].name == name ensures name in AsMap(vars) {
        var j :| 0 <= j < |vars| && vars[j].name == name;
        if j < |init| {
          assert init[j] == vars[j];
        }
      }
    }
  }

  /** A variable whose name no later variable reuses keeps its value in the map. */
  lemma {:induction false} AsMapLookup(vars: seq<EnvironmentVariable>, k: nat)
    requires k < |vars|
    requires forall j :: k < j < |vars| ==> vars[j].name != vars[k].name
    ensures vars[k].name in AsMap(vars) && AsMap(vars)[vars[k].name] == vars[k].value
  {
    var init := vars[..|vars| - 1];
    if k < |vars| - 1 {
      assert init[k] == vars[k];
      AsMapLookup(init, k);
    }
  }

  /**
   * The prefetch variables, in the order of the dict display in
   * `_get_prefetch_environment_variables`: stop corepack prompting and
   * honouring the project's pinned version, make yarn ignore PATH and
   * lifecycle scripts, set the network timeout, and point the unpruned offline
   * mirror at `<outputDir>/deps/yarn-classic`.
   */
  function PrefetchVariables(outputDir: string): seq<EnvironmentVariable> {
    [
      EnvironmentVariable(DownloadPromptVar, "0"),
      EnvironmentVariable(ProjectSpecVar, "0"),
      EnvironmentVariable(IgnorePathVar, "true"),
      EnvironmentVariable(IgnoreScriptsVar, "true"),
      EnvironmentVariable(NetworkTimeoutVar, Decimal(YarnNetworkTimeoutMilliseconds)),
      EnvironmentVariable(MirrorVar, JoinPath(outputDir, MirrorDir)),
      EnvironmentVariable(PruningVar, "false")
    ]
  }

  /** The prefetch environment: the prefetch variables as a map. */
  function PrefetchEnvironment(outputDir: string): Env {
    AsMap(PrefetchVariables(outputDir))
  }

  /** The prefetch environment sets exactly the seven variables. */
  lemma PrefetchEnvironmentKeys(outputDir: string)
    ensures PrefetchEnvironment(outputDir).Keys ==
      {DownloadPromptVar, ProjectSpecVar, IgnorePathVar, IgnoreScriptsVar, NetworkTimeoutVar, MirrorVar, PruningVar}
    ensures |PrefetchEnvironment(outputDir)| == 7
  {
    var vars := PrefetchVariables(outputDir);
    var env := PrefetchEnvironment(outputDir);
    var seven := {DownloadPromptVar, ProjectSpecVar, IgnorePathVar, IgnoreScriptsVar, NetworkTimeoutVar, MirrorVar, PruningVar};
    PrefetchEnvironmentValues(outputDir);
    AsMapKeys(vars);
    forall name | name in env ensures name in seven {
      var j :| 0 <= j < |vars| && vars[j].name == name;
      assert j == 0 || j == 1 || j == 2 || j == 3 || j == 4 || j == 5 || j == 6;
    }
    VariableNameLengths();
    assert env.Keys == seven;
  }

  /**
   * No corepack download prompt, no project-pinned yarn, PATH and lifecycle
   * scripts ignored, the timeout in milliseconds, and the unpruned mirror at
   * `<outputDir>/deps/yarn-classic`.
   */
  lemma PrefetchEnvironmentValues(outputDir: string)
    ensures var env := PrefetchEnvironment(outputDir);
      && env.Keys >= {DownloadPromptVar, ProjectSpecVar, IgnorePathVar, IgnoreScriptsVar, NetworkTimeoutVar, MirrorVar, PruningVar}
      && env[DownloadPromptVar] == "0"
      && env[ProjectSpecVar] == "0"
      && env[IgnorePathVar] == "true"
      && env[IgnoreScriptsVar] == "true"
      && env[NetworkTimeoutVar] == "600000"
      && env[MirrorVar] == JoinPath(outputDir, MirrorDir)
      && env[PruningVar] == "false"
  {
    var vars := PrefetchVariables(outputDir);
    VariableNameLengths();
    TimeoutRendering();
    AsMapLookup(vars, 0);
    AsMapLookup(vars, 1);
    AsMapLookup(vars, 2);
    AsMapLookup(vars, 3);
    AsMapLookup(vars, 4);
    AsMapLookup(vars, 5);
    AsMapLookup(vars, 6);
  }

  /**
   * The build environment: the mirror location, with a placeholder for the
   * output directory, followed by the pruning switch, in that order.
   */
  function BuildEnvironmentVariables(): (vars: seq<EnvironmentVariable>)
    ensures |vars| == 2
    ensures vars[0].name == MirrorVar && vars[0].value == JoinPath(OutputDirPlaceholder, MirrorDir)
    ensures vars[1].name == PruningVar && vars[1].value == "false"
  {
    PlaceholderMirrorPath();
    [EnvironmentVariable(MirrorVar, "${output_dir}/deps/yarn-classic"), EnvironmentVariable(PruningVar, "false")]
  }

  /** The literal mirror path of the build environment is the mirror directory under the placeholder. */
  lemma PlaceholderMirrorPath()
    ensures JoinPath(OutputDirPlaceholder, MirrorDir) == "${output_dir}/deps/yarn-classic"
  {
    assert OutputDirPlaceholder + "/" == "${output_dir}/";
  }

  /**
   * The build environment re-declares exactly what the prefetch environment
   * sets for the mirror, with the output directory left as a placeholder: each
   * build variable is a prefetch variable with the same value.
   */
  lemma BuildEnvironmentAgreesWithPrefetch()
    ensures forall v :: v in BuildEnvironmentVariables() ==>
      v.name in PrefetchEnvironment(OutputDirPlaceholder) && PrefetchEnvironment(OutputDirPlaceholder)[v.name] == v.value
  {
    PrefetchEnvironmentValues(OutputDirPlaceholder);
  }
}
