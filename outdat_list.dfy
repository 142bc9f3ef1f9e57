/**
 * crates/outdat-list/src/main.rs: resolve every outdated package, then sort the releases in
 * place with `Release`'s ordering before they are serialised. Parsing the input, serialising
 * and printing are not part of this model.
 */
module OutdatList {
  import opened Results
  import opened ReleaseIdentity
  import opened ReleaseResolver

  predicate Sorted(s: seq<Release>) {
    forall i, j :: 0 <= i < j < |s| ==> LessOrEqual(s[i], s[j])
  }

  predicate AdjacentSorted(s: seq<Release>) {
    forall k :: 0 < k < |s| ==> LessOrEqual(s[k - 1], s[k])
  }

  /** Ordering neighbours is enough: the order on releases is transitive. */
  lemma {:induction false} AdjacentSortedIsSorted(s: seq<Release>)
    requires AdjacentSorted(s)
    ensures Sorted(s)
  {
    if |s| > 1 {
      AdjacentSortedIsSorted(s[1..]);
      forall j | 1 <= j < |s| ensures LessOrEqual(s[0], s[j]) {
        if j > 1 {
          assert LessOrEqual(s[1..][0], s[1..][j - 1]);
          LessOrEqualTransitive(s[0], s[1], s[j]);
        }
      }
      forall i, j | 0 <= i < j < |s| ensures LessOrEqual(s[i], s[j]) {
        if i > 0 {
          assert LessOrEqual(s[1..][i - 1], s[1..][j - 1]);
        }
      }
    }
  }

  /**
   * The state of one insertion pass: the prefix `s[..i+1]` is ordered between neighbours except
   * at the pair `(j-1, j)`, where the inserted release still sits, and skipping that release
   * keeps the order.
   */
  predicate InsertingAt(s: seq<Release>, i: nat, j: nat)
    requires j <= i < |s|
  {
    (forall k :: 0 < k <= i && k != j ==> LessOrEqual(s[k - 1], s[k])) &&
    (0 < j < i ==> LessOrEqual(s[j - 1], s[j + 1]))
  }

  /** Swapping the inserted release one place down keeps an insertion pass in shape. */
  lemma SwapDown(s: seq<Release>, i: nat, j: nat)
    requires 0 < j <= i < |s| && InsertingAt(s, i, j)
    requires !LessOrEqual(s[j - 1], s[j])
    ensures InsertingAt(s[j - 1 := s[j]][j := s[j - 1]], i, j - 1)
  {
    LessOrEqualTotal(s[j - 1], s[j]);
  }

  /** A pass starts with an ordered prefix and the new release at its end. */
  lemma InsertionStart(s: seq<Release>, i: nat)
    requires i < |s| && AdjacentSorted(s[..i])
    ensures InsertingAt(s, i, i)
  {
    forall k | 0 < k < i ensures LessOrEqual(s[k - 1], s[k]) {
      assert s[k - 1] == s[..i][k - 1] && s[k] == s[..i][k];
    }
  }

  /** A pass ends when the inserted release is first or not below its left neighbour. */
  lemma InsertionDone(s: seq<Release>, i: nat, j: nat)
    requires j <= i < |s| && InsertingAt(s, i, j)
    requires j == 0 || LessOrEqual(s[j - 1], s[j])
    ensures AdjacentSorted(s[..i + 1])
  {
    var t := s[..i + 1];
    forall k | 0 < k < |t| ensures LessOrEqual(t[k - 1], t[k]) {
      assert t[k - 1] == s[k - 1] && t[k] == s[k];
    }
  }

  /** One insertion pass: the release at `i` moves down until its left neighbour is not greater. */
  method InsertAt(a: array<Release>, i: nat)
    requires i < a.Length && AdjacentSorted(a[..i])
    modifies a
    ensures AdjacentSorted(a[..i + 1])
    ensures multiset(a[..]) == multiset(old(a[..]))
  {
    var j := i;
    InsertionStart(a[..], i);
    while j > 0 && !LessOrEqual(a[j - 1], a[j])
      invariant 0 <= j <= i
      invariant InsertingAt(a[..], i, j)
      invariant multiset(a[..]) == multiset(old(a[..]))
    {
      SwapDown(a[..], i, j);
      a[j - 1], a[j] := a[j], a[j - 1];
      j := j - 1;
    }
    InsertionDone(a[..], i, j);
  }

  /**
   * `releases.sort()`: the array ends up ordered by package name, then by the version string,
   * and holds the same releases as before.
   */
  method SortReleases(a: array<Release>)
    modifies a
    ensures Sorted(a[..])
    ensures multiset(a[..]) == multiset(old(a[..]))
  {
    var i := 0;
    while i < a.Length
      invariant 0 <= i <= a.Length
      invariant AdjacentSorted(a[..i])
      invariant multiset(a[..]) == multiset(old(a[..]))
    {
      InsertAt(a, i);
      i := i + 1;
    }
    assert a[..] == a[..a.Length];
    AdjacentSortedIsSorted(a[..]);
  }

  /** The releases collected into a fresh vector and sorted there. */
  method SortedCopy(s: seq<Release>) returns (t: seq<Release>)
    ensures Sorted(t) && multiset(t) == multiset(s)
  {
    var a := new Release[|s|](i requires 0 <= i < |s| => s[i]);
    assert a[..] == s;
    SortReleases(a);
    t := a[..];
  }

  /**
   * `main` without its input and output: a failed resolution propagates before anything is
   * sorted or printed; otherwise the releases come back sorted and complete.
   */
  method ListReleases(parsed: OutdatedOutput, registry: Registry) returns (r: Result<seq<Release>, ResolveError>)
    ensures r.Err? <==> FetchAllReleases(parsed, registry).Err?
    ensures r.Err? ==> r == FetchAllReleases(parsed, registry)
    ensures r.Ok? ==> Sorted(r.value) && multiset(r.value) == multiset(FetchAllReleases(parsed, registry).value)
  {
    var fetched := FetchAllReleases(parsed, registry);
    if fetched.Err? {
      return fetched;
    }
    var sorted := SortedCopy(fetched.value);
    r := Ok(sorted);
  }
}
