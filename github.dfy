/**
 * crates/review/src/github.rs: recognising a GitHub repository URL and looking up the release
 * of a version by its tag. `Url::parse` is abstracted as the parse outcome it would return (a
 * host and the path segments, or nothing); the HTTP request of `fetch_release` is an oracle
 * from request URL to outcome.
 */
module GitHub {
  import opened Results

  /** What `Url::parse` yields that the code looks at: `host_str()` and `path_segments()`. */
  datatype ParsedUrl = ParsedUrl(host: Option<string>, pathSegments: Option<seq<string>>)

  datatype GitHubRepo = GitHubRepo(owner: string, repo: string)

  /** The `bail!` points of `from_github_url`, each carrying the offending URL. */
  datatype RepoError =
    | InvalidUrl(url: string)
    | NotGitHub(url: string)
    | InvalidPath(url: string)
    | MissingOwnerOrRepo(url: string)
    | EmptyOwner(url: string)
    | EmptyRepo(url: string)

  /** The fields of a GitHub release the program reads. */
  datatype GitHubRelease = GitHubRelease(tagName: string, body: Option<string>)

  const GIT_SUFFIX: string := ".git"

  predicate EndsWith(s: string, suffix: string) {
    |suffix| <= |s| && s[|s| - |suffix|..] == suffix
  }

  function Repeat(s: string, n: nat): string {
    if n == 0 then [] else s + Repeat(s, n - 1)
  }

  /**
   * `trim_end_matches`: removes the suffix again and again, so the result no longer ends with
   * it and the input is the result followed by some copies of it.
   */
  function TrimEndMatches(s: string, suffix: string): (r: string)
    requires |suffix| > 0
    ensures r <= s && !EndsWith(r, suffix)
    ensures exists n: nat :: s == r + Repeat(suffix, n)
    decreases |s|
  {
    if EndsWith(s, suffix) then
      var shorter := s[..|s| - |suffix|];
      var r := TrimEndMatches(shorter, suffix);
      var n: nat :| shorter == r + Repeat(suffix, n);
      assert s == shorter + suffix;
      RepeatAppend(suffix, n);
      assert s == r + Repeat(suffix, n + 1);
      r
    else
      assert s == s + Repeat(suffix, 0);
      s
  }

  lemma {:induction false} RepeatAppend(s: string, n: nat)
    ensures Repeat(s, n) + s == Repeat(s, n + 1)
  {
    if n > 0 {
      RepeatAppend(s, n - 1);
    }
  }

  /** `from_github_url`, with `parsed` the outcome of `Url::parse(urlStr)`. */
  function FromGitHubUrl(urlStr: string, parsed: Option<ParsedUrl>): (r: Result<GitHubRepo, RepoError>)
    ensures r.Ok? <==>
              parsed.Some? && parsed.value.host == Some("github.com") && parsed.value.pathSegments.Some? &&
              |parsed.value.pathSegments.value| >= 2 && parsed.value.pathSegments.value[0] != [] &&
              TrimEndMatches(parsed.value.pathSegments.value[1], GIT_SUFFIX) != []
    ensures r.Ok? ==> r.value.owner == parsed.value.pathSegments.value[0] &&
                      r.value.repo != [] && !EndsWith(r.value.repo, GIT_SUFFIX) &&
                      exists n: nat :: parsed.value.pathSegments.value[1] == r.value.repo + Repeat(GIT_SUFFIX, n)
    ensures parsed.None? ==> r == Err(InvalidUrl(urlStr))
    ensures parsed.Some? && parsed.value.host != Some("github.com") ==> r == Err(NotGitHub(urlStr))
    ensures parsed.Some? && parsed.value.host == Some("github.com") && parsed.value.pathSegments.None? ==>
              r == Err(InvalidPath(urlStr))
    ensures parsed.Some? && parsed.value.host == Some("github.com") && parsed.value.pathSegments.Some? &&
            |parsed.value.pathSegments.value| < 2 ==>
              r == Err(MissingOwnerOrRepo(urlStr))
    ensures parsed.Some? && parsed.value.host == Some("github.com") && parsed.value.pathSegments.Some? &&
            |parsed.value.pathSegments.value| >= 2 && parsed.value.pathSegments.value[0] == [] ==>
              r == Err(EmptyOwner(urlStr))
    ensures parsed.Some? && parsed.value.host == Some("github.com") && parsed.value.pathSegments.Some? &&
            |parsed.value.pathSegments.value| >= 2 && parsed.value.pathSegments.value[0] != [] &&
            TrimEndMatches(parsed.value.pathSegments.value[1], GIT_SUFFIX) == [] ==>
              r == Err(EmptyRepo(urlStr))
  {
    match parsed
    case None => Err(InvalidUrl(urlStr))
    case Some(url) =>
      if url.host != Some("github.com") then Err(NotGitHub(urlStr))
      else
        match url.pathSegments
        case None => Err(InvalidPath(urlStr))
        case Some(pathParts) =>
          if |pathParts| < 2 then Err(MissingOwnerOrRepo(urlStr))
          else
            var owner := pathParts[0];
            if owner == [] then Err(EmptyOwner(urlStr))
            else
              var repo := TrimEndMatches(pathParts[1], GIT_SUFFIX);
              if repo == [] then Err(EmptyRepo(urlStr))
              else Ok(GitHubRepo(owner, repo))
  }

  /** The request URL of `fetch_release`. */
  function ReleaseUrl(repo: GitHubRepo, tag: string): string {
    "https://api.github.com/repos/" + repo.owner + "/" + repo.repo + "/releases/tags/" + tag
  }

  /** Different tags of one repository are never sent to the same URL. */
  lemma ReleaseUrlDeterminesTag(repo: GitHubRepo, tag1: string, tag2: string)
    requires ReleaseUrl(repo, tag1) == ReleaseUrl(repo, tag2)
    ensures tag1 == tag2
  {
    var prefix := "https://api.github.com/repos/" + repo.owner + "/" + repo.repo + "/releases/tags/";
    assert ReleaseUrl(repo, tag1) == prefix + tag1;
    assert ReleaseUrl(repo, tag2) == prefix + tag2;
    assert tag1 == (prefix + tag1)[|prefix|..];
    assert tag2 == (prefix + tag2)[|prefix|..];
  }

  /** The tags `fetch_release_by_version` tries, in order. */
  function TagsToTry(version: string): seq<string> {
    [version, "v" + version]
  }

  /**
   * The outcome of trying `tags` in order against the API: the first release found, or
   * "No release found" when every attempt failed, whatever the failures were.
   */
  function FirstRelease(repo: GitHubRepo, tags: seq<string>, api: string -> Result<GitHubRelease, string>): (r: Result<GitHubRelease, string>)
    ensures r.Ok? <==> exists i :: 0 <= i < |tags| && api(ReleaseUrl(repo, tags[i])).Ok?
    ensures r.Ok? ==> exists i :: 0 <= i < |tags| && api(ReleaseUrl(repo, tags[i])) == r &&
                        forall j :: 0 <= j < i ==> api(ReleaseUrl(repo, tags[j])).Err?
    ensures r.Err? ==> r.error == "No release found"
  {
    if tags == [] then Err("No release found")
    else
      match api(ReleaseUrl(repo, tags[0]))
      case Ok(release) => Ok(release)
      case Err(_) =>
        var r := FirstRelease(repo, tags[1..], api);
        if r.Ok? then
          var i :| 0 <= i < |tags[1..]| && api(ReleaseUrl(repo, tags[1..][i])) == r &&
                   forall j :: 0 <= j < i ==> api(ReleaseUrl(repo, tags[1..][j])).Err?;
          assert api(ReleaseUrl(repo, tags[i + 1])) == r;
          assert forall j :: 0 <= j < i + 1 ==> api(ReleaseUrl(repo, tags[j])).Err? by {
            forall j | 0 <= j < i + 1 ensures api(ReleaseUrl(repo, tags[j])).Err? {
              if j > 0 {
                assert tags[j] == tags[1..][j - 1];
              }
            }
          }
          r
        else
          assert forall i :: 0 <= i < |tags| ==> api(ReleaseUrl(repo, tags[i])).Err? by {
            forall i | 0 <= i < |tags| ensures api(ReleaseUrl(repo, tags[i])).Err? {
              if i > 0 {
                assert tags[i] == tags[1..][i - 1];
              }
            }
          }
          r
  }

  /** `fetch_release_by_version`: the plain version tag first, then the `v`-prefixed one. */
  method FetchReleaseByVersion(repo: GitHubRepo, version: string, api: string -> Result<GitHubRelease, string>)
    returns (r: Result<GitHubRelease, string>)
    ensures r == FirstRelease(repo, TagsToTry(version), api)
  {
    var tags := TagsToTry(version);
    var i := 0;
    while i < |tags|
      invariant 0 <= i <= |tags|
      invariant FirstRelease(repo, tags[i..], api) == FirstRelease(repo, tags, api)
    {
      assert tags[i..][0] == tags[i] && tags[i..][1..] == tags[i + 1..];
      var attempt := api(ReleaseUrl(repo, tags[i]));
      if attempt.Ok? {
        return Ok(attempt.value);
      }
      i := i + 1;
    }
    r := Err("No release found");
  }

  /**
   * The fallback order: the plain tag wins when it exists; the `v` tag is used only when the
   * plain one fails; the lookup fails only when both fail.
   */
  lemma TagFallback(repo: GitHubRepo, version: string, api: string -> Result<GitHubRelease, string>)
    ensures var r := FirstRelease(repo, TagsToTry(version), api);
            var plain := api(ReleaseUrl(repo, version));
            var prefixed := api(ReleaseUrl(repo, "v" + version));
            (plain.Ok? ==> r == plain) &&
            (plain.Err? && prefixed.Ok? ==> r == prefixed) &&
            (r.Err? <==> plain.Err? && prefixed.Err?)
  {
    var tags := TagsToTry(version);
    assert tags[1..] == ["v" + version];
    assert tags[1..][1..] == [];
  }

  /** `https://github.com/rust-lang/rust.git` names owner `rust-lang` and repository `rust`. */
  lemma ValidUrlExample()
    ensures FromGitHubUrl("https://github.com/rust-lang/rust.git",
                          Some(ParsedUrl(Some("github.com"), Some(["rust-lang", "rust.git"]))))
            == Ok(GitHubRepo("rust-lang", "rust"))
  {
    assert EndsWith("rust.git", GIT_SUFFIX);
    assert "rust.git"[..4] == "rust";
    assert !EndsWith("rust", GIT_SUFFIX);
  }

  /** The suffix goes repeatedly: `tool.git.git` becomes `tool`, and `.git` alone is empty. */
  lemma RepeatedSuffixStripped()
    ensures TrimEndMatches("tool.git.git", GIT_SUFFIX) == "tool"
    ensures TrimEndMatches(".git", GIT_SUFFIX) == []
  {
    assert EndsWith("tool.git.git", GIT_SUFFIX);
    assert "tool.git.git"[..8] == "tool.git";
    assert EndsWith("tool.git", GIT_SUFFIX);
    assert "tool.git"[..4] == "tool";
    assert !EndsWith("tool", GIT_SUFFIX);
    assert EndsWith(".git", GIT_SUFFIX);
    assert ".git"[..0] == [];
  }

  /**
   * The rejected shapes: another host (`www.github.com` included), no path beyond the host, an
   * owner only, an empty owner, a repository name that is only `.git`, and an unparseable URL.
   */
  lemma InvalidUrlExamples(url: string)
    ensures FromGitHubUrl(url, Some(ParsedUrl(Some("gitlab.com"), Some(["user", "repo"])))) == Err(NotGitHub(url))
    ensures FromGitHubUrl(url, Some(ParsedUrl(Some("www.github.com"), Some(["user", "repo"])))) == Err(NotGitHub(url))
    ensures FromGitHubUrl(url, Some(ParsedUrl(Some("github.com"), Some([""])))) == Err(MissingOwnerOrRepo(url))
    ensures FromGitHubUrl(url, Some(ParsedUrl(Some("github.com"), Some(["owner"])))) == Err(MissingOwnerOrRepo(url))
    ensures FromGitHubUrl(url, Some(ParsedUrl(Some("github.com"), Some(["", "repo"])))) == Err(EmptyOwner(url))
    ensures FromGitHubUrl(url, Some(ParsedUrl(Some("github.com"), Some(["owner", ".git"])))) == Err(EmptyRepo(url))
    ensures FromGitHubUrl(url, None) == Err(InvalidUrl(url))
  {
    assert "gitlab.com" != "github.com" by { assert "gitlab.com"[3] != "github.com"[3]; }
    assert "www.github.com" != "github.com" by { assert |"www.github.com"| != |"github.com"|; }
    RepeatedSuffixStripped();
  }

  /** Segments after the repository are ignored. */
  lemma ExtraSegmentsIgnored(url: string, owner: string, repo: string, rest: seq<string>)
    requires owner != [] && repo != [] && !EndsWith(repo, GIT_SUFFIX)
    ensures FromGitHubUrl(url, Some(ParsedUrl(Some("github.com"), Some([owner, repo] + rest)))) == Ok(GitHubRepo(owner, repo))
  {
    assert ([owner, repo] + rest)[0] == owner && ([owner, repo] + rest)[1] == repo;
  }
}
