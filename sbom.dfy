/** The SBOM components the prefetch reports: one per resolved package, in order. */
module Sbom {
  import opened Packages

  /** The semantic properties attached to a component; only the npm development flag is used here. */
  datatype PropertySet = PropertySet(npmDevelopment: bool)

  datatype Component = Component(name: string, purl: string, version: string, properties: PropertySet)

  /** The component list for a package list, defined one package at a time from the end. */
  function SbomComponents(packages: seq<Package>): seq<Component>
    decreases |packages|
  {
    if packages == [] then []
    else
      var last := packages[|packages| - 1];
      SbomComponents(packages[..|packages| - 1])
        + [Component(last.name, last.purl, last.version, PropertySet(last.dev))]
  }

  /**
   * Component `i` carries package `i`'s name, purl and version, and its
   * development flag is exactly the package's `dev`: nothing is filtered,
   * merged or reordered.
   */
  lemma {:induction false} SbomComponentsAt(packages: seq<Package>)
    ensures |SbomComponents(packages)| == |packages|
    ensures forall i :: 0 <= i < |packages| ==>
      && SbomComponents(packages)[i].name == packages[i].name
      && SbomComponents(packages)[i].purl == packages[i].purl
      && SbomComponents(packages)[i].version == packages[i].version
      && SbomComponents(packages)[i].properties.npmDevelopment == packages[i].dev
    decreases |packages|
  {
    if packages != [] {
      SbomComponentsAt(packages[..|packages| - 1]);
    }
  }

  /** The components of two package lists placed one after the other. */
  lemma {:induction false} SbomComponentsAppend(a: seq<Package>, b: seq<Package>)
    ensures SbomComponents(a + b) == SbomComponents(a) + SbomComponents(b)
    decreases |b|
  {
    if b != [] {
      var b' := b[..|b| - 1];
      assert (a + b)[..|a + b| - 1] == a + b';
      assert (a + b)[|a + b| - 1] == b[|b| - 1];
      SbomComponentsAppend(a, b');
    } else {
      assert a + b == a;
    }
  }

  /** `_create_sbom_components`: append one component per package, in order. */
  method CreateSbomComponents(packages: seq<Package>) returns (result: seq<Component>)
    ensures |result| == |packages|
    ensures forall i :: 0 <= i < |packages| ==>
      result[i] == Component(packages[i].name, packages[i].purl, packages[i].version, PropertySet(packages[i].dev))
    ensures result == SbomComponents(packages)
  {
    result := [];
    for i := 0 to |packages|
      invariant result == SbomComponents(packages[..i])
    {
      var package := packages[i];
      var properties := PropertySet(npmDevelopment := package.dev);
      assert packages[..i + 1][..i] == packages[..i];
      result := result + [Component(package.name, package.purl, package.version, properties)];
    }
    assert packages[..|packages|] == packages;
    SbomComponentsAt(packages);
  }
}
