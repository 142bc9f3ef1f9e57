/**
 * The fan-out / fan-in of crates/pnpm/src/lib.rs (and its copy in crates/outdat-list): one
 * registry lookup per outdated package, each followed by parsing the package's installed and
 * latest versions and filtering its candidates; `try_join_all` then fails the whole call if any
 * package failed, and otherwise flattens the per-package lists in input order.
 */
module ReleaseResolver {
  import opened Results
  import Strings
  import opened SemverPolicy
  import opened ReleaseIdentity
  import opened NpmRegistry

  /** One entry of pnpm's `outdated` report. */
  datatype OutdatedPackage = OutdatedPackage(current: string, latest: string)

  datatype OutdatedEntry = OutdatedEntry(name: string, info: OutdatedPackage)

  predicate NamesAscending(entries: seq<OutdatedEntry>) {
    forall i, j :: 0 <= i < j < |entries| ==> Strings.LessThan(entries[i].name, entries[j].name)
  }

  /** `PnpmOutdatedOutput`, a `BTreeMap` from package name: entries in ascending name order. */
  type OutdatedOutput = entries: seq<OutdatedEntry> | NamesAscending(entries) witness []

  datatype ResolveError =
    | RegistryError(message: string)
    | VersionError(error: ParseError)
    | FilterError(message: string)

  /** `NpmPackage::fetch`, the network lookup, as an oracle from package name to outcome. */
  type Registry = string -> Result<NpmPackage, string>

  /**
   * The per-package future: the lookup, then `current`, then `latest`, then the filter; the
   * first failure is the package's outcome.
   */
  function ResolvePackage(fetched: Result<NpmPackage, string>, info: OutdatedPackage): (r: Result<seq<Release>, ResolveError>)
    ensures r.Ok? <==> fetched.Ok? && Parse(info.current).Ok? && Parse(info.latest).Ok?
    ensures fetched.Err? ==> r == Err(RegistryError(fetched.error))
    ensures fetched.Ok? && Parse(info.current).Err? ==> r == Err(VersionError(Parse(info.current).error))
    ensures fetched.Ok? && Parse(info.current).Ok? && Parse(info.latest).Err? ==>
              r == Err(VersionError(Parse(info.latest).error))
    ensures r.Ok? ==>
              r.value == Candidates(fetched.value.name, fetched.value.repositoryUrl, fetched.value.versions,
                                    Parse(info.current).value, Parse(info.latest).value)
  {
    match fetched
    case Err(e) => Err(RegistryError(e))
    case Ok(package) =>
      match Parse(info.current)
      case Err(e) => Err(VersionError(e))
      case Ok(current) =>
        match Parse(info.latest)
        case Err(e) => Err(VersionError(e))
        case Ok(latest) =>
          match FetchReleases(package, current, latest)
          case Err(e) => Err(FilterError(e))
          case Ok(releases) => Ok(releases)
  }

  /** The per-package outcomes, one for each entry, in entry order. */
  function Outcomes(parsed: seq<OutdatedEntry>, registry: Registry): (rs: seq<Result<seq<Release>, ResolveError>>)
    ensures |rs| == |parsed|
    ensures forall i :: 0 <= i < |parsed| ==> rs[i] == ResolvePackage(registry(parsed[i].name), parsed[i].info)
  {
    seq(|parsed|, i requires 0 <= i < |parsed| => ResolvePackage(registry(parsed[i].name), parsed[i].info))
  }

  /**
   * `try_join_all`: `Ok` of every value, in order, when every outcome is `Ok`; otherwise the
   * error of one of the failures (which one depends on completion order and is not fixed here).
   */
  function TryJoinAll<T, E>(rs: seq<Result<T, E>>): (r: Result<seq<T>, E>)
    ensures r.Ok? <==> forall i :: 0 <= i < |rs| ==> rs[i].Ok?
    ensures r.Ok? ==> |r.value| == |rs| && forall i :: 0 <= i < |rs| ==> r.value[i] == rs[i].value
    ensures r.Err? ==> exists i :: 0 <= i < |rs| && rs[i] == Err(r.error)
  {
    if rs == [] then Ok([])
    else
      match rs[0]
      case Err(e) => Err(e)
      case Ok(v) =>
        match TryJoinAll(rs[1..])
        case Err(e) => assert rs[1..][0] == rs[1]; Err(e)
        case Ok(vs) => Ok([v] + vs)
  }

  /** `.into_iter().flatten().collect()`. */
  function Flatten<T>(xss: seq<seq<T>>): seq<T> {
    if xss == [] then [] else xss[0] + Flatten(xss[1..])
  }

  function TotalLength<T>(xss: seq<seq<T>>): nat {
    if xss == [] then 0 else |xss[0]| + TotalLength(xss[1..])
  }

  /** Flattening keeps the groups in order: earlier groups come first. */
  lemma {:induction false} FlattenAppend<T>(a: seq<seq<T>>, b: seq<seq<T>>)
    ensures Flatten(a + b) == Flatten(a) + Flatten(b)
  {
    if a == [] {
      assert a + b == b;
    } else {
      assert (a + b)[0] == a[0];
      assert (a + b)[1..] == a[1..] + b;
      FlattenAppend(a[1..], b);
    }
  }

  /** Nothing is lost or invented: the flattened list has as many items as the groups together. */
  lemma {:induction false} FlattenLength<T>(xss: seq<seq<T>>)
    ensures |Flatten(xss)| == TotalLength(xss)
  {
    if xss != [] {
      FlattenLength(xss[1..]);
    }
  }

  /** An item is in the flattened list exactly when it is in one of the groups. */
  lemma {:induction false} FlattenMembership<T>(xss: seq<seq<T>>, x: T)
    ensures x in Flatten(xss) <==> exists i :: 0 <= i < |xss| && x in xss[i]
  {
    if xss != [] {
      FlattenMembership(xss[1..], x);
      if x in Flatten(xss[1..]) {
        var i :| 0 <= i < |xss[1..]| && x in xss[1..][i];
        assert x in xss[i + 1];
      }
      if exists i :: 0 <= i < |xss| && x in xss[i] {
        var i :| 0 <= i < |xss| && x in xss[i];
        if i > 0 {
          assert x in xss[1..][i - 1];
        }
      }
    }
  }

  /**
   * `fetch_all_releases`: fail-fast over every package; on success the packages' candidate
   * lists concatenated in entry (package-name) order.
   */
  function FetchAllReleases(parsed: OutdatedOutput, registry: Registry): (r: Result<seq<Release>, ResolveError>)
    ensures r.Err? <==> exists i :: 0 <= i < |parsed| && ResolvePackage(registry(parsed[i].name), parsed[i].info).Err?
    ensures r.Err? ==> exists i :: 0 <= i < |parsed| && ResolvePackage(registry(parsed[i].name), parsed[i].info) == Err(r.error)
    ensures r.Ok? ==> exists groups: seq<seq<Release>> ::
              |groups| == |parsed| && r.value == Flatten(groups) &&
              forall i :: 0 <= i < |parsed| ==> ResolvePackage(registry(parsed[i].name), parsed[i].info) == Ok(groups[i])
  {
    var rs := Outcomes(parsed, registry);
    match TryJoinAll(rs)
    case Err(e) => Err(e)
    case Ok(groups) => Ok(Flatten(groups))
  }

  /** An empty report resolves to an empty list. */
  lemma EmptyReport(registry: Registry)
    ensures FetchAllReleases([], registry) == Ok([])
  {
  }

  /** A pre-release or malformed installed version of any one package fails the whole call. */
  lemma BadVersionFailsAll(parsed: OutdatedOutput, registry: Registry, i: nat)
    requires i < |parsed| && registry(parsed[i].name).Ok?
    requires Parse(parsed[i].info.current).Err? || Parse(parsed[i].info.latest).Err?
    ensures FetchAllReleases(parsed, registry).Err?
  {
  }

  /** A failed registry lookup of any one package fails the whole call. */
  lemma LookupFailureFailsAll(parsed: OutdatedOutput, registry: Registry, i: nat)
    requires i < |parsed| && registry(parsed[i].name).Err?
    ensures FetchAllReleases(parsed, registry).Err?
  {
  }

  /**
   * On success the result has exactly as many releases as the packages' candidate lists
   * together.
   */
  lemma FetchAllCount(parsed: OutdatedOutput, registry: Registry)
    requires FetchAllReleases(parsed, registry).Ok?
    ensures var rs := Outcomes(parsed, registry);
            (forall i :: 0 <= i < |rs| ==> rs[i].Ok?) &&
            |FetchAllReleases(parsed, registry).value| == TotalLength(seq(|rs|, i requires 0 <= i < |rs| => rs[i].value))
  {
    var rs := Outcomes(parsed, registry);
    var groups := TryJoinAll(rs).value;
    assert groups == seq(|rs|, i requires 0 <= i < |rs| => rs[i].value);
    FlattenLength(groups);
  }

  /** After a successful join, an item is in the flattened values exactly when one outcome holds it. */
  lemma JoinedMembership<T, E>(rs: seq<Result<seq<T>, E>>, x: T)
    requires TryJoinAll(rs).Ok?
    ensures x in Flatten(TryJoinAll(rs).value) <==> exists i :: 0 <= i < |rs| && x in rs[i].value
  {
    var groups := TryJoinAll(rs).value;
    FlattenMembership(groups, x);
    if exists i :: 0 <= i < |rs| && x in rs[i].value {
      var i :| 0 <= i < |rs| && x in rs[i].value;
      assert x in groups[i];
    }
  }

  /** On success each release comes from one of the packages' candidate lists, and each of those is kept. */
  lemma FetchAllContents(parsed: OutdatedOutput, registry: Registry)
    requires FetchAllReleases(parsed, registry).Ok?
    ensures forall x :: x in FetchAllReleases(parsed, registry).value <==>
              exists i :: 0 <= i < |parsed| && x in ResolvePackage(registry(parsed[i].name), parsed[i].info).value
  {
    var rs := Outcomes(parsed, registry);
    forall x ensures x in Flatten(TryJoinAll(rs).value) <==> exists i :: 0 <= i < |rs| && x in rs[i].value {
      JoinedMembership(rs, x);
    }
  }
}
