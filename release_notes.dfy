/**
 * The decision chain of `ReleaseExt::fetch_release_notes` (crates/outdatui/src/release_ext.rs):
 * reject an unparseable repository URL, then a host other than GitHub, then look the release up
 * by its version and fall back to a placeholder when the release has no body. The outdatui
 * `github` module it calls is not part of this model; the one of crates/review/src/github.rs
 * stands in for it.
 */
module ReleaseNotes {
  import opened Results
  import opened ReleaseIdentity
  import opened GitHub

  const INVALID_URL: string := "Invalid repository URL"
  const ONLY_GITHUB: string := "Only GitHub repositories are supported for release notes"
  const EMPTY_NOTES: string := "Empty release notes"
  const FETCH_FAILED: string := "Failed to fetch release notes: "

  /** `is_github_url`: parses, and the host is exactly `github.com`. */
  predicate IsGitHubUrl(parsed: Option<ParsedUrl>) {
    parsed.Some? && parsed.value.host == Some("github.com")
  }

  /** How a call ends: with a `Result`, or by panicking with a message. */
  datatype NotesOutcome = Returned(result: Result<string, string>) | Panicked(message: string)

  /**
   * `fetch_release_notes` as written, with `parsed` the outcome of parsing the release's
   * repository URL and `api` the GitHub API.
   */
  function FetchReleaseNotes(release: Release, parsed: Option<ParsedUrl>, api: string -> Result<GitHubRelease, string>): (o: NotesOutcome)
    ensures parsed.None? ==> o == Returned(Err(INVALID_URL))
    ensures parsed.Some? && !IsGitHubUrl(parsed) ==> o == Returned(Err(ONLY_GITHUB))
    ensures o.Panicked? <==> IsGitHubUrl(parsed) && FromGitHubUrl(release.repositoryUrl, parsed).Err?
  {
    if parsed.None? then Returned(Err(INVALID_URL))
    else if !IsGitHubUrl(parsed) then Returned(Err(ONLY_GITHUB))
    else
      match FromGitHubUrl(release.repositoryUrl, parsed)
      case Ok(repo) =>
        (match FirstRelease(repo, TagsToTry(release.semver), api)
         case Ok(found) => Returned(Ok(found.body.GetOr(EMPTY_NOTES)))
         case Err(e) => Returned(Err(FETCH_FAILED + e)))
      case Err(_) => Panicked("Invalid GitHub URL; this should have been caught earlier")
  }

  /**
   * The branch the source calls unreachable is reached by `https://github.com/owner`: the host
   * is GitHub, but there is no repository segment.
   */
  lemma PanicReachable(release: Release, api: string -> Result<GitHubRelease, string>)
    ensures FetchReleaseNotes(release, Some(ParsedUrl(Some("github.com"), Some(["owner"]))), api).Panicked?
  {
  }

  /** The same chain with that branch reporting an error instead of panicking. */
  function FetchReleaseNotesChecked(release: Release, parsed: Option<ParsedUrl>, api: string -> Result<GitHubRelease, string>): (r: Result<string, string>)
    ensures !IsGitHubUrl(parsed) ==> r.Err?
    ensures r.Ok? <==> FromGitHubUrl(release.repositoryUrl, parsed).Ok? &&
                       FirstRelease(FromGitHubUrl(release.repositoryUrl, parsed).value, TagsToTry(release.semver), api).Ok?
    ensures FetchReleaseNotes(release, parsed, api).Returned? ==> r == FetchReleaseNotes(release, parsed, api).result
  {
    if parsed.None? then Err(INVALID_URL)
    else if !IsGitHubUrl(parsed) then Err(ONLY_GITHUB)
    else
      match FromGitHubUrl(release.repositoryUrl, parsed)
      case Ok(repo) =>
        (match FirstRelease(repo, TagsToTry(release.semver), api)
         case Ok(found) => Ok(found.body.GetOr(EMPTY_NOTES))
         case Err(e) => Err(FETCH_FAILED + e))
      case Err(_) => Err("Invalid GitHub URL")
  }

  /**
   * Found notes come back verbatim, a missing body becomes the placeholder, and a failed lookup
   * always reads "Failed to fetch release notes: No release found", because the lookup discards
   * the reasons of both attempts.
   */
  lemma NotesOfValidRepository(release: Release, parsed: Option<ParsedUrl>, api: string -> Result<GitHubRelease, string>)
    requires FromGitHubUrl(release.repositoryUrl, parsed).Ok?
    ensures var repo := FromGitHubUrl(release.repositoryUrl, parsed).value;
            var found := FirstRelease(repo, TagsToTry(release.semver), api);
            var r := FetchReleaseNotesChecked(release, parsed, api);
            (found.Ok? && found.value.body.Some? ==> r == Ok(found.value.body.value)) &&
            (found.Ok? && found.value.body.None? ==> r == Ok("Empty release notes")) &&
            (found.Err? ==> r == Err("Failed to fetch release notes: No release found"))
  {
    assert FETCH_FAILED + "No release found" == "Failed to fetch release notes: No release found";
  }

  /** On a URL that really names a GitHub repository, the two versions agree. */
  lemma CheckedAgreesOnValidRepositories(release: Release, parsed: Option<ParsedUrl>, api: string -> Result<GitHubRelease, string>)
    requires !IsGitHubUrl(parsed) || FromGitHubUrl(release.repositoryUrl, parsed).Ok?
    ensures FetchReleaseNotes(release, parsed, api) == Returned(FetchReleaseNotesChecked(release, parsed, api))
  {
  }
}
