/**
 * The older single-crate copy of the candidate filter (src/npm_registry.rs). It runs the same
 * `filter_map` / `filter` / `map` chain; its `Release` and `semver` modules are not part of
 * this model, so the workspace ones stand in for them.
 */
module LegacyNpmRegistry {
  import opened Results
  import opened SemverPolicy
  import opened ReleaseIdentity
  import NpmRegistry

  /**
   * `NpmPackage::fetch_releases` of the older tree: always `Ok`, with the same candidates, in key
   * order, as the workspace filter; every release is eligible and every eligible key has one.
   */
  function FetchReleases(p: NpmRegistry.NpmPackage, current: Semver, latest: Semver): (r: Result<seq<Release>, string>)
    ensures r.Ok?
    ensures r.value == NpmRegistry.Candidates(p.name, p.repositoryUrl, p.versions, current, latest)
    ensures forall i :: 0 <= i < |r.value| ==>
              r.value[i].package == p.name &&
              Parse(r.value[i].semver).Ok? && NpmRegistry.Eligible(Parse(r.value[i].semver).value, current, latest)
    ensures forall i :: 0 <= i < |p.versions| && Parse(p.versions[i]).Ok? &&
                        NpmRegistry.Eligible(Parse(p.versions[i]).value, current, latest) ==>
              NpmRegistry.ReleaseFor(p.name, p.repositoryUrl, Parse(p.versions[i]).value) in r.value
  {
    var rs := NpmRegistry.Candidates(p.name, p.repositoryUrl, p.versions, current, latest);
    assert forall i :: 0 <= i < |rs| ==>
             rs[i].package == p.name &&
             Parse(rs[i].semver).Ok? && NpmRegistry.Eligible(Parse(rs[i].semver).value, current, latest) by {
      forall i | 0 <= i < |rs|
        ensures rs[i].package == p.name &&
                Parse(rs[i].semver).Ok? && NpmRegistry.Eligible(Parse(rs[i].semver).value, current, latest)
      {
        NpmRegistry.CandidatesSound(p.name, p.repositoryUrl, p.versions, current, latest, i);
      }
    }
    assert forall i :: 0 <= i < |p.versions| && Parse(p.versions[i]).Ok? &&
                       NpmRegistry.Eligible(Parse(p.versions[i]).value, current, latest) ==>
             NpmRegistry.ReleaseFor(p.name, p.repositoryUrl, Parse(p.versions[i]).value) in rs by {
      forall i | 0 <= i < |p.versions| && Parse(p.versions[i]).Ok? &&
                 NpmRegistry.Eligible(Parse(p.versions[i]).value, current, latest)
        ensures NpmRegistry.ReleaseFor(p.name, p.repositoryUrl, Parse(p.versions[i]).value) in rs
      {
        NpmRegistry.CandidatesComplete(p.name, p.repositoryUrl, p.versions, current, latest, i);
      }
    }
    Ok(rs)
  }
}
