/**
 * The offline-mirror collision check. The mirror is a flat directory keyed by
 * tarball name, so two different packages that map to one name would overwrite
 * each other. The check groups the mirrored packages by tarball name, in the
 * order the names first appear, and fails on the first group whose members
 * are not all equal to its first member.
 */
module MirrorCollisions {
  import opened Wrappers
  import opened YarnErrors
  import opened Packages

  /**
   * The two tarball-name derivations, which belong to another part of the
   * program: one for registry and URL packages, one for Git packages.
   */
  datatype MirrorNaming = MirrorNaming(tarballName: string -> string, gitTarballName: string -> string)

  /** The tarball name under which a package is mirrored; None for file, link and workspace packages. */
  function MirrorName(p: Package, naming: MirrorNaming): (r: Option<string>)
    ensures r.None? <==> !p.kind.IsMirrored()
    ensures (p.kind.Registry? || p.kind.Url?) ==> r == Some(naming.tarballName(p.locator))
    ensures p.kind.Git? ==> r == Some(naming.gitTarballName(p.locator))
  {
    match p.kind
    case Registry => Some(naming.tarballName(p.locator))
    case Url => Some(naming.tarballName(p.locator))
    case Git => Some(naming.gitTarballName(p.locator))
    case _ => None
  }

  /** The tarball names of the mirrored packages, each once, in order of first appearance. */
  function MirroredNames(packages: seq<Package>, naming: MirrorNaming): seq<string>
    decreases |packages|
  {
    if packages == [] then []
    else
      var names := MirroredNames(packages[..|packages| - 1], naming);
      match MirrorName(packages[|packages| - 1], naming)
      case None => names
      case Some(n) => if n in names then names else names + [n]
  }

  /** The mirrored packages whose tarball name is `name`, in input order. */
  function Group(packages: seq<Package>, naming: MirrorNaming, name: string): seq<Package>
    decreases |packages|
  {
    if packages == [] then []
    else
      var last := packages[|packages| - 1];
      Group(packages[..|packages| - 1], naming, name) + (if MirrorName(last, naming) == Some(name) then [last] else [])
  }

  /** Every member of the group equals its first member. */
  predicate AllSameAsFirst(group: seq<Package>) {
    forall k :: 0 <= k < |group| ==> group[k] == group[0]
  }

  /** The first of `names` whose group is not uniform. */
  function FirstCollision(names: seq<string>, packages: seq<Package>, naming: MirrorNaming): Option<string>
  {
    if names == [] then None
    else if !AllSameAsFirst(Group(packages, naming, names[0])) then Some(names[0])
    else FirstCollision(names[1..], packages, naming)
  }

  /** What the collision check reports for a list of packages. */
  function CollisionCheck(packages: seq<Package>, naming: MirrorNaming): Outcome<Error> {
    match FirstCollision(MirroredNames(packages, naming), packages, naming)
    case None => Pass
    case Some(n) => Fail(MirrorCollision(n, |Group(packages, naming, n)|))
  }

  /**
   * The consistency the mirror needs: any two mirrored packages with the same
   * tarball name are equal.
   */
  ghost predicate MirrorConsistent(packages: seq<Package>, naming: MirrorNaming) {
    forall i, j ::
      0 <= i < |packages| && 0 <= j < |packages| &&
      MirrorName(packages[i], naming).Some? && MirrorName(packages[i], naming) == MirrorName(packages[j], naming)
      ==> packages[i] == packages[j]
  }

  /** The packages that are copied to the offline mirror, in input order. */
  function MirroredOnly(packages: seq<Package>): seq<Package>
    decreases |packages|
  {
    if packages == [] then []
    else
      var last := packages[|packages| - 1];
      MirroredOnly(packages[..|packages| - 1]) + (if last.kind.IsMirrored() then [last] else [])
  }

  /** `all(pkg == group[0] for pkg in group)`, stopping at the first member that differs. */
  method AllEqualToFirst(group: seq<Package>) returns (same: bool)
    ensures same == AllSameAsFirst(group)
  {
    for k := 0 to |group|
      invariant forall m :: 0 <= m < k ==> group[m] == group[0]
    {
      if group[k] != group[0] {
        return false;
      }
    }
    return true;
  }

  /**
   * The first loop of `_verify_no_offline_mirror_collisions`: append every
   * mirrored package to the list of its tarball name in a `defaultdict`,
   * remembering the order in which the names were first seen.
   */
  method GroupByTarballName(packages: seq<Package>, naming: MirrorNaming)
    returns (tarballCollisions: map<string, seq<Package>>, insertionOrder: seq<string>)
    ensures insertionOrder == MirroredNames(packages, naming)
    ensures forall n :: n in tarballCollisions <==> n in insertionOrder
    ensures forall n :: n in tarballCollisions ==> tarballCollisions[n] == Group(packages, naming, n)
  {
    tarballCollisions := map[];
    insertionOrder := [];
    for i := 0 to |packages|
      invariant insertionOrder == MirroredNames(packages[..i], naming)
      invariant forall n :: n in tarballCollisions <==> n in insertionOrder
      invariant forall n :: n in tarballCollisions ==> tarballCollisions[n] == Group(packages[..i], naming, n)
    {
      assert packages[..i + 1][..i] == packages[..i];
      var p := packages[i];
      var tarballName: string;
      if p.kind.Registry? || p.kind.Url? {
        tarballName := naming.tarballName(p.locator);
      } else if p.kind.Git? {
        tarballName := naming.gitTarballName(p.locator);
      } else {
        GroupsUnchangedByOthers(packages[..i + 1], naming);
        continue;
      }
      GroupsGrow(packages[..i + 1], naming, tarballName);
      if tarballName in tarballCollisions {
        tarballCollisions := tarballCollisions[tarballName := tarballCollisions[tarballName] + [p]];
      } else {
        GroupEmptyWhenUnnamed(packages[..i], naming, tarballName);
        tarballCollisions := tarballCollisions[tarballName := [p]];
        insertionOrder := insertionOrder + [tarballName];
      }
    }
    assert packages[..|packages|] == packages;
  }

  /**
   * `_verify_no_offline_mirror_collisions`: fill a tarball-name-to-packages map in one
   * pass, remembering the order in which names were first inserted, then scan
   * the groups in that order.
   */
  method VerifyNoOfflineMirrorCollisions(packages: seq<Package>, naming: MirrorNaming) returns (r: Outcome<Error>)
    ensures r == CollisionCheck(packages, naming)
    ensures r.Pass? <==> MirrorConsistent(packages, naming)
  {
    var tarballCollisions, insertionOrder := GroupByTarballName(packages, naming);
    CollisionCheckIsConsistency(packages, naming);
    for k := 0 to |insertionOrder|
      invariant forall m :: 0 <= m < k ==> AllSameAsFirst(Group(packages, naming, insertionOrder[m]))
    {
      var group := tarballCollisions[insertionOrder[k]];
      var same := AllEqualToFirst(group);
      if !same {
        FirstCollisionScan(insertionOrder, packages, naming, k);
        return Fail(MirrorCollision(insertionOrder[k], |group|));
      }
    }
    FirstCollisionScan(insertionOrder, packages, naming, |insertionOrder|);
    return Pass;
  }

  // ---------------------------------------------------------------------------
  // Lemmas about the grouping.

  /** A package that is not mirrored leaves every group and the name order as they were. */
  lemma GroupsUnchangedByOthers(packages: seq<Package>, naming: MirrorNaming)
    requires |packages| > 0 && MirrorName(packages[|packages| - 1], naming).None?
    ensures MirroredNames(packages, naming) == MirroredNames(packages[..|packages| - 1], naming)
    ensures forall n :: Group(packages, naming, n) == Group(packages[..|packages| - 1], naming, n)
  {
  }

  /** A mirrored package joins the end of its own group and of no other. */
  lemma GroupsGrow(packages: seq<Package>, naming: MirrorNaming, name: string)
    requires |packages| > 0 && MirrorName(packages[|packages| - 1], naming) == Some(name)
    ensures Group(packages, naming, name) == Group(packages[..|packages| - 1], naming, name) + [packages[|packages| - 1]]
    ensures forall n :: n != name ==> Group(packages, naming, n) == Group(packages[..|packages| - 1], naming, n)
    ensures MirroredNames(packages, naming) ==
      var names := MirroredNames(packages[..|packages| - 1], naming);
      if name in names then names else names + [name]
  {
  }

  /** A name that has not appeared among the mirrored names has an empty group. */
  lemma {:induction false} GroupEmptyWhenUnnamed(packages: seq<Package>, naming: MirrorNaming, name: string)
    requires name !in MirroredNames(packages, naming)
    ensures Group(packages, naming, name) == []
    decreases |packages|
  {
    if packages != [] {
      var init := packages[..|packages| - 1];
      var names := MirroredNames(init, naming);
      assert name !in names by {
        assert forall n :: n in names ==> n in MirroredNames(packages, naming);
      }
      GroupEmptyWhenUnnamed(init, naming, name);
    }
  }

  /** The mirrored names are exactly the tarball names of the mirrored packages. */
  lemma {:induction false} MirroredNamesSpec(packages: seq<Package>, naming: MirrorNaming, name: string)
    ensures name in MirroredNames(packages, naming)
      <==> exists i :: 0 <= i < |packages| && MirrorName(packages[i], naming) == Some(name)
    decreases |packages|
  {
    if packages != [] {
      var init := packages[..|packages| - 1];
      MirroredNamesSpec(init, naming, name);
      if exists i :: 0 <= i < |init| && MirrorName(init[i], naming) == Some(name) {
        var i :| 0 <= i < |init| && MirrorName(init[i], naming) == Some(name);
        assert packages[i] == init[i];
      }
      if exists i :: 0 <= i < |packages| && MirrorName(packages[i], naming) == Some(name) {
        var i :| 0 <= i < |packages| && MirrorName(packages[i], naming) == Some(name);
        if i < |init| {
          assert init[i] == packages[i];
        }
      }
    }
  }

  /** A group holds exactly the packages that map to its name. */
  lemma {:induction false} GroupSpec(packages: seq<Package>, naming: MirrorNaming, name: string, x: Package)
    ensures x in Group(packages, naming, name)
      <==> exists i :: 0 <= i < |packages| && packages[i] == x && MirrorName(x, naming) == Some(name)
    decreases |packages|
  {
    if packages != [] {
      var init := packages[..|packages| - 1];
      GroupSpec(init, naming, name, x);
      if exists i :: 0 <= i < |init| && init[i] == x && MirrorName(x, naming) == Some(name) {
        var i :| 0 <= i < |init| && init[i] == x && MirrorName(x, naming) == Some(name);
        assert packages[i] == x;
      }
      if exists i :: 0 <= i < |packages| && packages[i] == x && MirrorName(x, naming) == Some(name) {
        var i :| 0 <= i < |packages| && packages[i] == x && MirrorName(x, naming) == Some(name);
        if i < |init| {
          assert init[i] == x;
        }
      }
    }
  }

  /** Scanning `names` in order: with the first `k` groups uniform, the next non-uniform one is reported. */
  lemma {:induction false} FirstCollisionScan(names: seq<string>, packages: seq<Package>, naming: MirrorNaming, k: nat)
    requires k <= |names|
    requires forall m :: 0 <= m < k ==> AllSameAsFirst(Group(packages, naming, names[m]))
    ensures k == |names| ==> FirstCollision(names, packages, naming) == None
    ensures k < |names| && !AllSameAsFirst(Group(packages, naming, names[k]))
      ==> FirstCollision(names, packages, naming) == Some(names[k])
  {
    if k > 0 {
      FirstCollisionScan(names[1..], packages, naming, k - 1);
    }
  }

  /** FirstCollision finds nothing exactly when every group in `names` is uniform, and otherwise an earliest one. */
  lemma {:induction false} FirstCollisionSpec(names: seq<string>, packages: seq<Package>, naming: MirrorNaming)
    ensures FirstCollision(names, packages, naming).None?
      <==> forall m :: 0 <= m < |names| ==> AllSameAsFirst(Group(packages, naming, names[m]))
    ensures FirstCollision(names, packages, naming).Some? ==>
      exists k :: 0 <= k < |names| && names[k] == FirstCollision(names, packages, naming).value &&
        !AllSameAsFirst(Group(packages, naming, names[k])) &&
        forall m :: 0 <= m < k ==> AllSameAsFirst(Group(packages, naming, names[m]))
  {
    if names != [] {
      FirstCollisionSpec(names[1..], packages, naming);
      if FirstCollision(names, packages, naming).Some? && AllSameAsFirst(Group(packages, naming, names[0])) {
        var k :| 0 <= k < |names[1..]| && names[1..][k] == FirstCollision(names[1..], packages, naming).value &&
          !AllSameAsFirst(Group(packages, naming, names[1..][k])) &&
          forall m :: 0 <= m < k ==> AllSameAsFirst(Group(packages, naming, names[1..][m]));
        assert names[k + 1] == names[1..][k];
        forall m | 0 <= m < k + 1 ensures AllSameAsFirst(Group(packages, naming, names[m])) {
          if m > 0 { assert names[m] == names[1..][m - 1]; }
        }
      }
      if forall m :: 0 <= m < |names[1..]| ==> AllSameAsFirst(Group(packages, naming, names[1..][m])) {
        if AllSameAsFirst(Group(packages, naming, names[0])) {
          forall m | 0 <= m < |names| ensures AllSameAsFirst(Group(packages, naming, names[m])) {
            if m > 0 { assert names[m] == names[1..][m - 1]; }
          }
        }
      } else {
        var m :| 0 <= m < |names[1..]| && !AllSameAsFirst(Group(packages, naming, names[1..][m]));
        assert names[m + 1] == names[1..][m];
      }
    }
  }

  // ---------------------------------------------------------------------------
  // What the check guarantees.

  /**
   * The check passes exactly when the mirror is consistent: the verdict does
   * not depend on which group is scanned first.
   */
  lemma CollisionCheckIsConsistency(packages: seq<Package>, naming: MirrorNaming)
    ensures CollisionCheck(packages, naming).Pass? <==> MirrorConsistent(packages, naming)
  {
    var names := MirroredNames(packages, naming);
    FirstCollisionSpec(names, packages, naming);
    if MirrorConsistent(packages, naming) {
      forall m | 0 <= m < |names| ensures AllSameAsFirst(Group(packages, naming, names[m])) {
        var g := Group(packages, naming, names[m]);
        forall k | 0 <= k < |g| ensures g[k] == g[0] {
          GroupSpec(packages, naming, names[m], g[k]);
          GroupSpec(packages, naming, names[m], g[0]);
          var i :| 0 <= i < |packages| && packages[i] == g[k] && MirrorName(g[k], naming) == Some(names[m]);
          var j :| 0 <= j < |packages| && packages[j] == g[0] && MirrorName(g[0], naming) == Some(names[m]);
        }
      }
    }
    if CollisionCheck(packages, naming).Pass? {
      forall i, j |
        0 <= i < |packages| && 0 <= j < |packages| &&
        MirrorName(packages[i], naming).Some? && MirrorName(packages[i], naming) == MirrorName(packages[j], naming)
        ensures packages[i] == packages[j]
      {
        var n := MirrorName(packages[i], naming).value;
        MirroredNamesSpec(packages, naming, n);
        var m :| 0 <= m < |names| && names[m] == n;
        var g := Group(packages, naming, n);
        GroupSpec(packages, naming, n, packages[i]);
        GroupSpec(packages, naming, n, packages[j]);
        var ki :| 0 <= ki < |g| && g[ki] == packages[i];
        var kj :| 0 <= kj < |g| && g[kj] == packages[j];
      }
    }
  }

  /**
   * A reported collision names a tarball whose group holds two different
   * packages, and its count is that group's size: the number of mirrored
   * packages mapping to the name. All groups of names that appeared earlier are uniform.
   */
  lemma CollisionReport(packages: seq<Package>, naming: MirrorNaming)
    requires CollisionCheck(packages, naming).Fail?
    ensures var e := CollisionCheck(packages, naming).error;
      && e.MirrorCollision?
      && e.count == |Group(packages, naming, e.tarballName)|
      && e.count >= 2
      && (exists i, j :: 0 <= i < |packages| && 0 <= j < |packages| && packages[i] != packages[j] &&
            MirrorName(packages[i], naming) == Some(e.tarballName) && MirrorName(packages[j], naming) == Some(e.tarballName))
      && exists k :: 0 <= k < |MirroredNames(packages, naming)| && MirroredNames(packages, naming)[k] == e.tarballName &&
           forall m :: 0 <= m < k ==> AllSameAsFirst(Group(packages, naming, MirroredNames(packages, naming)[m]))
  {
    var names := MirroredNames(packages, naming);
    FirstCollisionSpec(names, packages, naming);
    var n := FirstCollision(names, packages, naming).value;
    var g := Group(packages, naming, n);
    var k :| 0 <= k < |g| && g[k] != g[0];
    GroupSpec(packages, naming, n, g[k]);
    GroupSpec(packages, naming, n, g[0]);
    var i :| 0 <= i < |packages| && packages[i] == g[k] && MirrorName(g[k], naming) == Some(n);
    var j :| 0 <= j < |packages| && packages[j] == g[0] && MirrorName(g[0], naming) == Some(n);
  }

  /** Only the set of packages matters for whether the check passes, not their order. */
  lemma CollisionVerdictIgnoresOrder(packages: seq<Package>, others: seq<Package>, naming: MirrorNaming)
    requires multiset(packages) == multiset(others)
    ensures CollisionCheck(packages, naming).Pass? <==> CollisionCheck(others, naming).Pass?
  {
    CollisionCheckIsConsistency(packages, naming);
    CollisionCheckIsConsistency(others, naming);
    if MirrorConsistent(packages, naming) {
      ConsistencyBySet(packages, others, naming);
    }
    if MirrorConsistent(others, naming) {
      ConsistencyBySet(others, packages, naming);
    }
  }

  lemma ConsistencyBySet(packages: seq<Package>, others: seq<Package>, naming: MirrorNaming)
    requires multiset(packages) == multiset(others)
    requires MirrorConsistent(packages, naming)
    ensures MirrorConsistent(others, naming)
  {
    forall i, j |
      0 <= i < |others| && 0 <= j < |others| &&
      MirrorName(others[i], naming).Some? && MirrorName(others[i], naming) == MirrorName(others[j], naming)
      ensures others[i] == others[j]
    {
      assert others[i] in multiset(packages) && others[j] in multiset(packages);
      var a :| 0 <= a < |packages| && packages[a] == others[i];
      var b :| 0 <= b < |packages| && packages[b] == others[j];
    }
  }

  /**
   * File, link and workspace packages never take part: the check gives the
   * same answer, error included, on the mirrored packages alone.
   */
  lemma {:induction false} NonMirroredIgnored(packages: seq<Package>, naming: MirrorNaming)
    ensures CollisionCheck(MirroredOnly(packages), naming) == CollisionCheck(packages, naming)
  {
    GroupingIgnoresNonMirrored(packages, naming);
    FirstCollisionDependsOnGroups(MirroredNames(packages, naming), MirroredOnly(packages), packages, naming);
  }

  /** FirstCollision looks at the packages only through their groups. */
  lemma {:induction false} FirstCollisionDependsOnGroups(
    names: seq<string>, packages: seq<Package>, others: seq<Package>, naming: MirrorNaming)
    requires forall n :: Group(packages, naming, n) == Group(others, naming, n)
    ensures FirstCollision(names, packages, naming) == FirstCollision(names, others, naming)
  {
    if names != [] {
      FirstCollisionDependsOnGroups(names[1..], packages, others, naming);
    }
  }

  lemma {:induction false} GroupingIgnoresNonMirrored(packages: seq<Package>, naming: MirrorNaming)
    ensures MirroredNames(MirroredOnly(packages), naming) == MirroredNames(packages, naming)
    ensures forall n :: Group(MirroredOnly(packages), naming, n) == Group(packages, naming, n)
    decreases |packages|
  {
    if packages != [] {
      var init := packages[..|packages| - 1];
      var last := packages[|packages| - 1];
      GroupingIgnoresNonMirrored(init, naming);
      if last.kind.IsMirrored() {
        var q := MirroredOnly(init) + [last];
        assert q[..|q| - 1] == MirroredOnly(init);
        assert q[|q| - 1] == last;
        assert MirroredOnly(packages) == q;
        var name := MirrorName(last, naming).value;
        assert MirroredNames(q, naming) ==
          var names := MirroredNames(MirroredOnly(init), naming);
          if name in names then names else names + [name];
        forall n ensures Group(q, naming, n) ==
          Group(MirroredOnly(init), naming, n) + (if MirrorName(last, naming) == Some(n) then [last] else [])
        {
        }
      } else {
        assert MirroredOnly(packages) == MirroredOnly(init);
        assert MirrorName(last, naming).None?;
      }
    }
  }

  /**
   * Two registry packages with one tarball name: equal ones (an npm alias)
   * pass, different ones are a collision of 2.
   */
  lemma TwoRegistryPackages(p1: Package, p2: Package, naming: MirrorNaming)
    requires p1.kind == Registry && p2.kind == Registry
    requires naming.tarballName(p1.locator) == naming.tarballName(p2.locator)
    ensures p1 == p2 ==> CollisionCheck([p1, p2], naming) == Pass
    ensures p1 != p2 ==> CollisionCheck([p1, p2], naming) == Fail(MirrorCollision(naming.tarballName(p1.locator), 2))
  {
    var n := naming.tarballName(p1.locator);
    assert [p1, p2][..1] == [p1];
    assert [p1][..0] == [];
    assert MirroredNames([p1], naming) == [n];
    assert MirroredNames([p1, p2], naming) == [n];
    assert Group([p1], naming, n) == [p1];
    assert Group([p1, p2], naming, n) == [p1, p2];
    assert AllSameAsFirst([p1, p2]) <==> p1 == p2 by {
      assert [p1, p2][1] == p2;
    }
    assert [n][1..] == [];
    assert FirstCollision([n], [p1, p2], naming) == if p1 == p2 then None else Some(n);
  }
}
