/**
 * A candidate release: a package name, one version string and the package's source
 * repository URL. Releases are ordered by package name, then by the version STRING, so
 * "1.10.0" sorts before "1.9.0". The display form is `package@semver`.
 */
module ReleaseIdentity {
  import opened Results
  import Strings

  datatype Release = Release(package: string, semver: string, repositoryUrl: string)

  /** `to_string`: `{package}@{semver}`. */
  function ToString(r: Release): string {
    r.package + "@" + r.semver
  }

  /**
   * Reads a display form back: everything before the LAST `@` is the package (scoped npm
   * names such as `@types/node` contain an `@` of their own), everything after it the version.
   */
  function SplitIdentity(s: string): Option<(string, string)> {
    if s == [] then None
    else if s[|s| - 1] == '@' then Some((s[..|s| - 1], ""))
    else
      match SplitIdentity(s[..|s| - 1])
      case None => None
      case Some((package, semver)) => Some((package, semver + [s[|s| - 1]]))
  }

  /** The display form can be read back whenever the version string holds no `@`. */
  lemma {:induction false} SplitToString(r: Release)
    requires '@' !in r.semver
    ensures SplitIdentity(ToString(r)) == Some((r.package, r.semver))
    decreases |r.semver|
  {
    var s := ToString(r);
    if r.semver == [] {
      assert s[..|s| - 1] == r.package;
    } else {
      var shorter := r.(semver := r.semver[..|r.semver| - 1]);
      SplitToString(shorter);
      assert s[..|s| - 1] == ToString(shorter);
      assert s[|s| - 1] == r.semver[|r.semver| - 1];
      assert r.semver[|r.semver| - 1] in r.semver;
      assert shorter.semver + [s[|s| - 1]] == r.semver;
    }
  }

  /** `Ord::cmp`: the package names decide; only equal names defer to the version strings. */
  function Compare(a: Release, b: Release): Strings.Ordering {
    match Strings.Compare(a.package, b.package)
    case Equal => Strings.Compare(a.semver, b.semver)
    case other => other
  }

  /** `PartialOrd::partial_cmp`: always defined. */
  function PartialCompare(a: Release, b: Release): (o: Option<Strings.Ordering>)
    ensures o.Some?
    ensures o.value == Strings.Equal <==> a.package == b.package && a.semver == b.semver
  {
    Some(Compare(a, b))
  }

  predicate LessOrEqual(a: Release, b: Release) {
    Compare(a, b) != Strings.Greater
  }

  /**
   * `Equal` means the same package and the same version string; the repository URL plays no
   * part, so two releases that differ only in it compare `Equal` although `==` tells them apart.
   */
  lemma CompareEqual(a: Release, b: Release)
    ensures Compare(a, b) == Strings.Equal <==> a.package == b.package && a.semver == b.semver
  {
  }

  lemma {:induction false} CompareReverse(a: Release, b: Release)
    ensures Compare(b, a) == Compare(a, b).Reverse()
  {
    Strings.CompareReverse(a.package, b.package);
    Strings.CompareReverse(a.semver, b.semver);
  }

  /** `<=` on releases is a total preorder, antisymmetric up to the repository URL. */
  lemma {:induction false} LessOrEqualTotal(a: Release, b: Release)
    ensures LessOrEqual(a, b) || LessOrEqual(b, a)
    ensures LessOrEqual(a, b) && LessOrEqual(b, a) ==> a.package == b.package && a.semver == b.semver
  {
    CompareReverse(a, b);
  }

  lemma {:induction false} LessOrEqualTransitive(a: Release, b: Release, c: Release)
    requires LessOrEqual(a, b) && LessOrEqual(b, c)
    ensures LessOrEqual(a, c)
  {
    Strings.CompareReverse(a.package, b.package);
    Strings.CompareReverse(b.package, c.package);
    if Strings.Compare(a.package, b.package) == Strings.Equal {
      if Strings.Compare(b.package, c.package) == Strings.Equal {
        Strings.CompareTransitive(a.semver, b.semver, c.semver);
      }
    } else {
      Strings.CompareTransitive(a.package, b.package, c.package);
    }
  }

  /** Versions compare as text: "1.10.0" comes before "1.9.0". */
  lemma TextualVersionOrder(package: string, url: string)
    ensures Compare(Release(package, "1.10.0", url), Release(package, "1.9.0", url)) == Strings.Less
  {
    var a, b := "1.10.0", "1.9.0";
    assert a[..2] == b[..2];
    assert Strings.Compare(a, b) == Strings.Compare(a[1..], b[1..]);
    assert Strings.Compare(a[1..], b[1..]) == Strings.Compare(a[2..], b[2..]);
  }
}
