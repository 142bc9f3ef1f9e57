/**
 * Candidate filtering for one package: of the version keys the npm registry lists, keep the
 * ones that parse, are a minor update of the installed version and do not pass the known
 * latest version, and turn each into a release of that package.
 */
module NpmRegistry {
  import opened Results
  import Strings
  import opened SemverPolicy
  import opened ReleaseIdentity

  /** The keys of the registry's `versions` map in `BTreeMap` iteration order: ascending, no repeats. */
  type VersionKeys = keys: seq<string> | Strings.StrictlyAscending(keys) witness []

  /**
   * One package's registry document. `repositoryUrl` is the document's `repository.url`,
   * which every release of the package carries.
   */
  datatype NpmPackage = NpmPackage(name: string, repositoryUrl: string, versions: VersionKeys)

  /** The two filters of `fetch_releases`. */
  predicate Eligible(v: Semver, current: Semver, latest: Semver) {
    IsMinorUpdateOf(v, current) && IsAtMost(v, latest)
  }

  /** What one key contributes: its release if it parses and passes both filters, else nothing. */
  function KeyReleases(name: string, url: string, k: string, current: Semver, latest: Semver): (rs: seq<Release>)
    ensures |rs| <= 1
  {
    match Parse(k)
    case Err(_) => []
    case Ok(v) => if Eligible(v, current, latest) then [ReleaseFor(name, url, v)] else []
  }

  /**
   * The `filter_map` / `filter` / `map` chain over `keys`, in key order: at most one release
   * per key (`CandidatesSound` says which).
   */
  function Candidates(name: string, url: string, keys: seq<string>, current: Semver, latest: Semver): (rs: seq<Release>)
    ensures |rs| <= |keys|
  {
    if keys == [] then []
    else KeyReleases(name, url, keys[0], current, latest) + Candidates(name, url, keys[1..], current, latest)
  }

  /** The release one eligible key turns into: the version is re-displayed, not copied. */
  function ReleaseFor(name: string, url: string, v: Semver): Release {
    Release(name, Format(v), url)
  }

  /**
   * The pipeline treats each key on its own, in order: the candidates of a concatenation are
   * the concatenation of the candidates.
   */
  lemma {:induction false} CandidatesAppend(name: string, url: string, a: seq<string>, b: seq<string>, current: Semver, latest: Semver)
    ensures Candidates(name, url, a + b, current, latest)
         == Candidates(name, url, a, current, latest) + Candidates(name, url, b, current, latest)
  {
    if a != [] {
      assert (a + b)[0] == a[0];
      assert (a + b)[1..] == a[1..] + b;
      CandidatesAppend(name, url, a[1..], b, current, latest);
    } else {
      assert a + b == b;
    }
  }

  /** What a single key contributes: nothing if it does not parse or is not eligible, else one release. */
  lemma CandidatesOfKey(name: string, url: string, k: string, current: Semver, latest: Semver)
    ensures Parse(k).Err? ==> Candidates(name, url, [k], current, latest) == []
    ensures Parse(k).Ok? && !Eligible(Parse(k).value, current, latest) ==> Candidates(name, url, [k], current, latest) == []
    ensures Parse(k).Ok? && Eligible(Parse(k).value, current, latest) ==>
              Candidates(name, url, [k], current, latest) == [ReleaseFor(name, url, Parse(k).value)]
  {
    assert [k][1..] == [];
  }

  /** The contribution of a key whose version is known. */
  lemma KeyReleasesOf(name: string, url: string, k: string, v: Semver, current: Semver, latest: Semver)
    requires Parse(k) == Ok(v)
    ensures Eligible(v, current, latest) ==> KeyReleases(name, url, k, current, latest) == [ReleaseFor(name, url, v)]
    ensures !Eligible(v, current, latest) ==> KeyReleases(name, url, k, current, latest) == []
  {
  }

  /** Every key that parses and passes both filters yields its release. */
  lemma {:induction false} CandidatesComplete(name: string, url: string, keys: seq<string>, current: Semver, latest: Semver, i: nat)
    requires i < |keys| && Parse(keys[i]).Ok? && Eligible(Parse(keys[i]).value, current, latest)
    ensures ReleaseFor(name, url, Parse(keys[i]).value) in Candidates(name, url, keys, current, latest)
  {
    var rest := Candidates(name, url, keys[1..], current, latest);
    if i == 0 {
      KeyReleasesOf(name, url, keys[0], Parse(keys[0]).value, current, latest);
      assert Candidates(name, url, keys, current, latest) == [ReleaseFor(name, url, Parse(keys[0]).value)] + rest;
    } else {
      assert keys[1..][i - 1] == keys[i];
      CandidatesComplete(name, url, keys[1..], current, latest, i - 1);
      assert Candidates(name, url, keys, current, latest) == KeyReleases(name, url, keys[0], current, latest) + rest;
    }
  }

  /**
   * Every release the chain yields belongs to the package and carries a version string that
   * parses back to an eligible version.
   */
  lemma {:induction false} CandidatesSound(name: string, url: string, keys: seq<string>, current: Semver, latest: Semver, i: nat)
    requires i < |Candidates(name, url, keys, current, latest)|
    ensures var r := Candidates(name, url, keys, current, latest)[i];
            r.package == name && r.repositoryUrl == url &&
            Parse(r.semver).Ok? && Eligible(Parse(r.semver).value, current, latest)
  {
    var here := KeyReleases(name, url, keys[0], current, latest);
    var rest := Candidates(name, url, keys[1..], current, latest);
    if i < |here| {
      var v := Parse(keys[0]).value;
      assert (here + rest)[i] == ReleaseFor(name, url, v);
      ParseFormat(v);
    } else {
      assert (here + rest)[i] == rest[i - |here|];
      CandidatesSound(name, url, keys[1..], current, latest, i - |here|);
    }
  }

  /** `fetch_releases`: never fails; unparseable keys are dropped silently. */
  function FetchReleases(p: NpmPackage, current: Semver, latest: Semver): (r: Result<seq<Release>, string>)
    ensures r.Ok?
    ensures r.value == Candidates(p.name, p.repositoryUrl, p.versions, current, latest)
  {
    Ok(Candidates(p.name, p.repositoryUrl, p.versions, current, latest))
  }

  /** The keys from the `i`-th on: the `i`-th key's contribution, then the rest. */
  lemma CandidatesFrom(name: string, url: string, keys: seq<string>, current: Semver, latest: Semver, i: nat)
    requires i < |keys|
    ensures Candidates(name, url, keys[i..], current, latest)
         == KeyReleases(name, url, keys[i], current, latest) + Candidates(name, url, keys[i + 1..], current, latest)
  {
    assert keys[i..][0] == keys[i];
    assert keys[i..][1..] == keys[i + 1..];
  }

  /** A key that displays a version contributes that version's release exactly when it is eligible. */
  lemma KeyAt(name: string, url: string, keys: seq<string>, v: Semver, current: Semver, latest: Semver, i: nat)
    requires i < |keys| && keys[i] == Format(v)
    ensures Eligible(v, current, latest) ==>
              (Candidates(name, url, keys[i..], current, latest)
               == [ReleaseFor(name, url, v)] + Candidates(name, url, keys[i + 1..], current, latest))
    ensures !Eligible(v, current, latest) ==>
              Candidates(name, url, keys[i..], current, latest) == Candidates(name, url, keys[i + 1..], current, latest)
  {
    ParseFormat(v);
    KeyReleasesOf(name, url, keys[i], v, current, latest);
    CandidatesFrom(name, url, keys, current, latest, i);
  }

  // The versions of the resolver scenario below.
  const V1_2_0 := Semver(1, 2, 0)
  const V1_2_1 := Semver(1, 2, 1)
  const V1_3_0 := Semver(1, 3, 0)
  const V1_4_0 := Semver(1, 4, 0)
  const V1_5_0 := Semver(1, 5, 0)
  const V2_0_0 := Semver(2, 0, 0)

  /** Of 1.4.0, 1.5.0 and 2.0.0 only 1.4.0 is a minor update of 1.2.0 that does not pass 1.4.0. */
  lemma ScenarioTail(name: string, url: string, keys: seq<string>)
    requires |keys| == 5 && keys[2] == Format(V1_4_0) && keys[3] == Format(V1_5_0) && keys[4] == Format(V2_0_0)
    ensures Candidates(name, url, keys[2..], V1_2_0, V1_4_0) == [ReleaseFor(name, url, V1_4_0)]
  {
    KeyAt(name, url, keys, V2_0_0, V1_2_0, V1_4_0, 4);
    KeyAt(name, url, keys, V1_5_0, V1_2_0, V1_4_0, 3);
    KeyAt(name, url, keys, V1_4_0, V1_2_0, V1_4_0, 2);
    assert keys[5..] == [];
  }

  /**
   * Installed 1.2.0, latest 1.4.0, registry versions 1.2.1, 1.3.0, 1.4.0, 1.5.0 and 2.0.0:
   * exactly 1.3.0 and 1.4.0 remain, in that order.
   */
  lemma ResolverScenario(name: string, url: string, keys: seq<string>)
    requires keys == [Format(V1_2_1), Format(V1_3_0), Format(V1_4_0), Format(V1_5_0), Format(V2_0_0)]
    ensures Candidates(name, url, keys, V1_2_0, V1_4_0) == [ReleaseFor(name, url, V1_3_0), ReleaseFor(name, url, V1_4_0)]
  {
    ScenarioTail(name, url, keys);
    KeyAt(name, url, keys, V1_3_0, V1_2_0, V1_4_0, 1);
    KeyAt(name, url, keys, V1_2_1, V1_2_0, V1_4_0, 0);
    assert keys[0..] == keys;
  }

  /**
   * Leading zeros let two distinct keys yield the same release: "01.3.0" and "1.3.0" both
   * become `1.3.0`, so the candidates of one package are not always distinct.
   */
  lemma LeadingZeroKeysCollide(name: string, url: string)
    ensures Candidates(name, url, ["01.3.0", "1.3.0"], Semver(1, 2, 0), Semver(1, 4, 0))
         == [Release(name, "1.3.0", url), Release(name, "1.3.0", url)]
  {
    var current, latest := Semver(1, 2, 0), Semver(1, 4, 0);
    LeadingZerosAccepted();
    ParseSingleDigits(1, 3, 0);
    CandidatesOfKey(name, url, "01.3.0", current, latest);
    CandidatesOfKey(name, url, "1.3.0", current, latest);
    CandidatesAppend(name, url, ["01.3.0"], ["1.3.0"], current, latest);
  }
}
