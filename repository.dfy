/**
 * The checks a project's checkout must pass before anything is fetched for it:
 * a `yarn.lock` is present, it is a yarn v1 lockfile, and the project is not a
 * Plug'n'Play install. The file-system reads are replaced by fields of `Project`.
 */
module Repository {
  import opened Wrappers
  import opened YarnErrors

  /** The marker every yarn v1 lockfile contains. */
  const YarnClassicPattern := "yarn lockfile v1"

  /** The lockfile's name, relative to the project's source directory. */
  const YarnLockName := "yarn.lock"

  /**
   * A project as the checks see it: its source directory, whether
   * `<sourceDir>/yarn.lock` exists, that file's text (read only once the file
   * is known to exist), and whether the project is configured for PnP.
   */
  datatype Project = Project(
    sourceDir: string,
    lockfileExists: bool,
    lockfileText: string,
    isPnpInstall: bool)

  /** `pattern` occurs in `text` starting at index `i`. */
  predicate OccursAt(text: string, pattern: string, i: nat) {
    i + |pattern| <= |text| && text[i..i + |pattern|] == pattern
  }

  /** Python's `pattern in text` on strings: substring search. */
  function Contains(text: string, pattern: string): (r: bool)
    ensures r <==> exists i: nat :: OccursAt(text, pattern, i)
    decreases |text|
  {
    if |text| < |pattern| then
      assert forall i: nat :: !OccursAt(text, pattern, i);
      false
    else if text[..|pattern|] == pattern then
      assert OccursAt(text, pattern, 0);
      true
    else
      var r := Contains(text[1..], pattern);
      assert forall i: nat :: OccursAt(text[1..], pattern, i) <==> OccursAt(text, pattern, i + 1) by {
        forall i: nat ensures OccursAt(text[1..], pattern, i) <==> OccursAt(text, pattern, i + 1) {
          if i + |pattern| <= |text[1..]| {
            assert text[1..][i..i + |pattern|] == text[i + 1..i + 1 + |pattern|];
          }
        }
      }
      assert !OccursAt(text, pattern, 0);
      assert (exists i: nat :: OccursAt(text, pattern, i)) ==> exists i: nat :: OccursAt(text[1..], pattern, i) by {
        if exists i: nat :: OccursAt(text, pattern, i) {
          var i: nat :| OccursAt(text, pattern, i);
          assert i > 0;
          assert OccursAt(text[1..], pattern, i - 1);
        }
      }
      r
  }

  /** Rejects a project whose source directory has no `yarn.lock`. */
  function RejectIfLockfileIsMissing(project: Project): (r: Outcome<Error>)
    ensures r.Pass? <==> project.lockfileExists
    ensures r.Fail? ==> r.error == MissingLockfile
  {
    if !project.lockfileExists then Fail(MissingLockfile) else Pass
  }

  /** Rejects a lockfile that does not contain the yarn v1 marker, naming the project's directory. */
  function RejectIfWrongLockfileVersion(project: Project): (r: Outcome<Error>)
    ensures r.Pass? <==> exists i: nat :: OccursAt(project.lockfileText, YarnClassicPattern, i)
    ensures r.Fail? ==> r.error == NotV1Lockfile(project.sourceDir)
  {
    if !Contains(project.lockfileText, YarnClassicPattern) then Fail(NotV1Lockfile(project.sourceDir)) else Pass
  }

  /** Rejects a project configured for Plug'n'Play installs. */
  function RejectIfPnpInstall(project: Project): (r: Outcome<Error>)
    ensures r.Pass? <==> !project.isPnpInstall
    ensures r.Fail? ==> r.error == PnpInstall
  {
    if project.isPnpInstall then Fail(PnpInstall) else Pass
  }

  /**
   * The three checks in order, stopping at the first that fails: a missing
   * lockfile wins over everything, a wrong lockfile version wins over PnP, and
   * PnP is reported only when the lockfile is a present v1 lockfile.
   */
  function VerifyRepository(project: Project): (r: Outcome<Error>)
    ensures !project.lockfileExists ==> r == Fail(MissingLockfile)
    ensures project.lockfileExists && !Contains(project.lockfileText, YarnClassicPattern)
      ==> r == Fail(NotV1Lockfile(project.sourceDir))
    ensures r == Fail(PnpInstall)
      <==> project.lockfileExists && Contains(project.lockfileText, YarnClassicPattern) && project.isPnpInstall
    ensures r.Pass?
      <==> project.lockfileExists && Contains(project.lockfileText, YarnClassicPattern) && !project.isPnpInstall
    ensures r.Fail? ==> r.error.IsPackageRejected()
  {
    if RejectIfLockfileIsMissing(project).Fail? then RejectIfLockfileIsMissing(project)
    else if RejectIfWrongLockfileVersion(project).Fail? then RejectIfWrongLockfileVersion(project)
    else RejectIfPnpInstall(project)
  }
}
