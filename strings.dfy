/**
 * The parts of Rust's `str` the program relies on: the total order that `String::cmp`
 * implements (lexicographic; comparing chars by code point agrees with comparing their
 * UTF-8 bytes), `split` on a single character and `join`.
 */
module Strings {

  datatype Ordering = Less | Equal | Greater {
    function Reverse(): Ordering {
      match this
      case Less => Greater
      case Equal => Equal
      case Greater => Less
    }
  }

  /** `a.cmp(b)` for two strings. */
  function Compare(a: string, b: string): (o: Ordering)
    ensures o == Equal <==> a == b
  {
    if a == [] then (if b == [] then Equal else Less)
    else if b == [] then Greater
    else if a[0] < b[0] then Less
    else if b[0] < a[0] then Greater
    else
      var o := Compare(a[1..], b[1..]);
      assert o == Equal ==> a == [a[0]] + a[1..] == [b[0]] + b[1..] == b;
      o
  }

  predicate LessOrEqual(a: string, b: string) {
    Compare(a, b) != Greater
  }

  predicate LessThan(a: string, b: string) {
    Compare(a, b) == Ordering.Less
  }

  /** Swapping the arguments reverses the answer. */
  lemma {:induction false} CompareReverse(a: string, b: string)
    ensures Compare(b, a) == Compare(a, b).Reverse()
  {
    if a != [] && b != [] && a[0] == b[0] {
      CompareReverse(a[1..], b[1..]);
    }
  }

  lemma {:induction false} CompareTransitive(a: string, b: string, c: string)
    requires LessOrEqual(a, b) && LessOrEqual(b, c)
    ensures LessOrEqual(a, c)
    ensures LessThan(a, b) || LessThan(b, c) ==> LessThan(a, c)
  {
    if a != [] && b != [] && c != [] && a[0] == b[0] == c[0] {
      CompareTransitive(a[1..], b[1..], c[1..]);
    }
  }

  /** Any two strings are comparable one way or the other. */
  lemma CompareTotal(a: string, b: string)
    ensures LessOrEqual(a, b) || LessOrEqual(b, a)
  {
    CompareReverse(a, b);
  }

  /** The keys of a `BTreeMap<String, _>` in iteration order: ascending and without repeats. */
  predicate StrictlyAscending(keys: seq<string>) {
    forall i, j :: 0 <= i < j < |keys| ==> LessThan(keys[i], keys[j])
  }

  /** Adjacent ascending pairs are enough for the whole sequence to be ascending. */
  lemma {:induction false} AdjacentAscending(keys: seq<string>)
    requires forall i :: 0 < i < |keys| ==> LessThan(keys[i - 1], keys[i])
    ensures StrictlyAscending(keys)
  {
    if |keys| > 1 {
      var init := keys[..|keys| - 1];
      AdjacentAscending(init);
      forall i | 0 <= i < |keys| - 1
        ensures LessThan(keys[i], keys[|keys| - 1])
      {
        if i < |keys| - 2 {
          assert LessThan(init[i], init[|keys| - 2]);
          CompareTransitive(keys[i], keys[|keys| - 2], keys[|keys| - 1]);
        }
      }
    }
  }

  /** `s.split(sep).collect::<Vec<_>>()`: never empty, even for the empty string. */
  function Split(s: string, sep: char): (parts: seq<string>)
    ensures |parts| >= 1
    ensures forall i :: 0 <= i < |parts| ==> sep !in parts[i]
  {
    if s == [] then [""]
    else if s[0] == sep then [""] + Split(s[1..], sep)
    else
      var rest := Split(s[1..], sep);
      [[s[0]] + rest[0]] + rest[1..]
  }

  /** `parts.join(sep)`; the empty list joins to the empty string. */
  function Join(parts: seq<string>, sep: char): string {
    if parts == [] then ""
    else if |parts| == 1 then parts[0]
    else parts[0] + [sep] + Join(parts[1..], sep)
  }

  /** Splitting undoes joining when no part contains the separator. */
  lemma {:induction false} SplitJoin(parts: seq<string>, sep: char)
    requires |parts| >= 1
    requires forall i :: 0 <= i < |parts| ==> sep !in parts[i]
    ensures Split(Join(parts, sep), sep) == parts
  {
    if |parts| == 1 {
      SplitNoSeparator(parts[0], sep);
    } else {
      SplitJoin(parts[1..], sep);
      SplitPrefix(parts[0], Join(parts[1..], sep), sep);
    }
  }

  /** A string without the separator splits into itself. */
  lemma {:induction false} SplitNoSeparator(s: string, sep: char)
    requires sep !in s
    ensures Split(s, sep) == [s]
  {
    if s != [] {
      SplitNoSeparator(s[1..], sep);
      assert [s[0]] + s[1..] == s;
    }
  }

  /** A separator-free head followed by the separator becomes the first part. */
  lemma {:induction false} SplitPrefix(head: string, tail: string, sep: char)
    requires sep !in head
    ensures Split(head + [sep] + tail, sep) == [head] + Split(tail, sep)
  {
    if head == [] {
      assert head + [sep] + tail == [sep] + tail;
      assert ([sep] + tail)[1..] == tail;
    } else {
      SplitPrefix(head[1..], tail, sep);
      var s := head + [sep] + tail;
      assert s[0] == head[0];
      assert s[1..] == head[1..] + [sep] + tail;
      assert [head[0]] + head[1..] == head;
    }
  }

  /** Joining the parts of a split gives back the string. */
  lemma {:induction false} SplitJoinInverse(s: string, sep: char)
    ensures Join(Split(s, sep), sep) == s
  {
    if s != [] {
      SplitJoinInverse(s[1..], sep);
      var rest := Split(s[1..], sep);
      if s[0] == sep {
        assert Split(s, sep) == [""] + rest;
        assert ([""] + rest)[1..] == rest;
      } else {
        assert Split(s, sep) == [[s[0]] + rest[0]] + rest[1..];
        if |rest| == 1 {
          assert Join(rest, sep) == rest[0];
        } else {
          assert Join(rest, sep) == rest[0] + [sep] + Join(rest[1..], sep);
          assert ([[s[0]] + rest[0]] + rest[1..])[1..] == rest[1..];
        }
      }
    }
  }

  lemma Join3(a: string, b: string, c: string, sep: char)
    ensures Join([a, b, c], sep) == a + [sep] + b + [sep] + c
  {
    assert [a, b, c][1..] == [b, c];
    assert [b, c][1..] == [c];
    assert Join([c], sep) == c;
    assert Join([b, c], sep) == b + [sep] + c;
    assert Join([a, b, c], sep) == a + [sep] + (b + [sep] + c);
  }
}
