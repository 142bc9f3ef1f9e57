/**
 * The version policy: a strict `major.minor.patch` parser over u32 parts, the display form,
 * the derived (lexicographic) order and the two eligibility predicates used to pick upgrade
 * candidates. It is a restricted form of Semantic Versioning 2.0.0: no pre-release, no build
 * metadata, and leading zeros are accepted.
 */
module SemverPolicy {
  import opened Results
  import opened Strings

  const U32_MAX: nat := 0xFFFF_FFFF

  type U32 = n: nat | n <= U32_MAX

  datatype Semver = Semver(major: U32, minor: U32, patch: U32)

  datatype ParseError = Prerelease | InvalidFormat | InvalidNumber(part: string)

  // ---------------------------------------------------------------------------
  // Decimal digits

  predicate IsDigit(c: char) {
    '0' <= c <= '9'
  }

  predicate AllDigits(s: string) {
    forall i :: 0 <= i < |s| ==> IsDigit(s[i])
  }

  function DigitValue(c: char): nat
    requires IsDigit(c)
  {
    (c as int - '0' as int) as nat
  }

  function DigitChar(d: nat): (c: char)
    requires d < 10
    ensures IsDigit(c) && DigitValue(c) == d
  {
    ('0' as int + d) as char
  }

  /** The number a string of decimal digits denotes (leading zeros allowed). */
  function DigitsValue(s: string): nat
    requires AllDigits(s)
  {
    if s == [] then 0 else DigitsValue(s[..|s| - 1]) * 10 + DigitValue(s[|s| - 1])
  }

  /** Canonical decimal: no leading zero unless the number is zero itself. */
  predicate Canonical(s: string) {
    |s| > 0 && AllDigits(s) && (s[0] == '0' ==> |s| == 1)
  }

  /** `n.to_string()`: the canonical decimal digits of `n`, which denote `n`. */
  function FormatNat(n: nat): (s: string)
    ensures Canonical(s) && DigitsValue(s) == n
    ensures n > 0 ==> s[0] != '0'
  {
    if n < 10 then [DigitChar(n)]
    else
      var s := FormatNat(n / 10) + [DigitChar(n % 10)];
      assert s[..|s| - 1] == FormatNat(n / 10);
      s
  }

  /** A canonical digit string is the formatting of its value. */
  lemma {:induction false} FormatDigitsValue(s: string)
    requires Canonical(s)
    ensures FormatNat(DigitsValue(s)) == s
  {
    if |s| > 1 {
      var init := s[..|s| - 1];
      assert init[0] == s[0];
      FormatDigitsValue(init);
      DigitsValuePositive(init);
      assert s == init + [s[|s| - 1]];
    }
  }

  lemma {:induction false} DigitsValuePositive(s: string)
    requires Canonical(s) && s[0] != '0'
    ensures DigitsValue(s) >= 1
  {
    if |s| > 1 {
      var init := s[..|s| - 1];
      assert init[0] == s[0];
      DigitsValuePositive(init);
    }
  }

  /**
   * `u32::from_str`: an optional `+`, then one or more ASCII digits whose value fits in
   * 32 bits; anything else (empty, a sign alone, another character, overflow) fails.
   */
  function ParseU32(s: string): (r: Option<U32>)
    ensures r.Some? ==> '-' !in s && '.' !in s
  {
    var digits := if |s| > 0 && s[0] == '+' then s[1..] else s;
    if |digits| > 0 && AllDigits(digits) && DigitsValue(digits) <= U32_MAX then
      assert forall i :: 0 <= i < |s| ==> s[i] == '+' || IsDigit(s[i]) by {
        forall i | 0 <= i < |s| ensures s[i] == '+' || IsDigit(s[i]) {
          if |s| > 0 && s[0] == '+' && i > 0 { assert s[i] == digits[i - 1]; }
        }
      }
      Some(DigitsValue(digits))
    else None
  }

  // ---------------------------------------------------------------------------
  // Parsing and display

  /**
   * `Semver::from_str`. The checks run in a fixed order: any `-` is a pre-release, then the
   * number of dot-separated parts, then major, minor and patch in turn.
   */
  function Parse(s: string): (r: Result<Semver, ParseError>)
    ensures r == Err(Prerelease) <==> '-' in s
    ensures r == Err(InvalidFormat) <==> '-' !in s && |Split(s, '.')| != 3
    ensures r.Ok? ==> '-' !in s && |Split(s, '.')| == 3
  {
    if '-' in s then Err(Prerelease)
    else
      var parts := Split(s, '.');
      if |parts| != 3 then Err(InvalidFormat)
      else
        match ParseU32(parts[0])
        case None => Err(InvalidNumber("major"))
        case Some(major) =>
          match ParseU32(parts[1])
          case None => Err(InvalidNumber("minor"))
          case Some(minor) =>
            match ParseU32(parts[2])
            case None => Err(InvalidNumber("patch"))
            case Some(patch) => Ok(Semver(major, minor, patch))
  }

  /** `Display for Semver`: `{major}.{minor}.{patch}`. */
  function Format(v: Semver): string {
    FormatNat(v.major) + "." + FormatNat(v.minor) + "." + FormatNat(v.patch)
  }

  lemma FormatIsJoin(v: Semver)
    ensures Format(v) == Join([FormatNat(v.major), FormatNat(v.minor), FormatNat(v.patch)], '.')
  {
    Join3(FormatNat(v.major), FormatNat(v.minor), FormatNat(v.patch), '.');
  }

  lemma DigitsHaveNoSeparator(s: string)
    requires AllDigits(s)
    ensures '.' !in s && '-' !in s
  {
    assert forall j :: 0 <= j < |s| ==> s[j] != '.' && s[j] != '-';
  }

  /** A displayed part reads back as the number it displays. */
  lemma ParsePart(n: U32)
    ensures ParseU32(FormatNat(n)) == Some(n)
  {
    var s := FormatNat(n);
    assert IsDigit(s[0]);
  }

  /** Every version survives display followed by parsing. */
  lemma ParseFormat(v: Semver)
    ensures Parse(Format(v)) == Ok(v)
  {
    var a, b, c := FormatNat(v.major), FormatNat(v.minor), FormatNat(v.patch);
    DigitsHaveNoSeparator(a);
    DigitsHaveNoSeparator(b);
    DigitsHaveNoSeparator(c);
    ParseDotted(a, b, c);
    ParsePart(v.major);
    ParsePart(v.minor);
    ParsePart(v.patch);
  }

  /** A parse result is displayed as one of the strings that parse to it. */
  lemma ParseIsFormatted(s: string)
    requires Parse(s).Ok?
    ensures Parse(Format(Parse(s).value)) == Parse(s)
  {
    ParseFormat(Parse(s).value);
  }

  /** The digits of an unsigned part with no sign and no leading zero are reproduced by display. */
  predicate CanonicalVersion(s: string) {
    var parts := Split(s, '.');
    |parts| == 3 && Canonical(parts[0]) && Canonical(parts[1]) && Canonical(parts[2])
  }

  /** Every display is canonical: three parts, each without sign or leading zero. */
  lemma FormatIsCanonical(v: Semver)
    ensures CanonicalVersion(Format(v))
  {
    var a, b, c := FormatNat(v.major), FormatNat(v.minor), FormatNat(v.patch);
    DigitsHaveNoSeparator(a);
    DigitsHaveNoSeparator(b);
    DigitsHaveNoSeparator(c);
    FormatIsJoin(v);
    SplitJoin([a, b, c], '.');
  }

  /** Parsing then displaying reproduces the input exactly when the input is canonical. */
  lemma {:induction false} FormatParse(s: string)
    requires Parse(s).Ok?
    ensures Format(Parse(s).value) == s <==> CanonicalVersion(s)
  {
    var v := Parse(s).value;
    if CanonicalVersion(s) {
      var parts := Split(s, '.');
      forall i | 0 <= i < 3 ensures FormatNat(DigitsValue(parts[i])) == parts[i] {
        FormatDigitsValue(parts[i]);
      }
      assert v == Semver(DigitsValue(parts[0]), DigitsValue(parts[1]), DigitsValue(parts[2]));
      SplitJoinInverse(s, '.');
      assert parts == [parts[0], parts[1], parts[2]];
      Join3(parts[0], parts[1], parts[2], '.');
    } else {
      FormatIsCanonical(v);
    }
  }

  // ---------------------------------------------------------------------------
  // Order and eligibility

  /** The derived `Ord`: lexicographic on (major, minor, patch). */
  function Compare(a: Semver, b: Semver): Ordering {
    if a.major != b.major then (if a.major < b.major then Ordering.Less else Greater)
    else if a.minor != b.minor then (if a.minor < b.minor then Ordering.Less else Greater)
    else if a.patch != b.patch then (if a.patch < b.patch then Ordering.Less else Greater)
    else Equal
  }

  predicate LessOrEqual(a: Semver, b: Semver) {
    Compare(a, b) != Greater
  }

  /** `is_minor_update_of`: same major, a later minor, and patch exactly 0. */
  predicate IsMinorUpdateOf(v: Semver, other: Semver) {
    v.major == other.major && v.minor > other.minor && v.patch == 0
  }

  /** `is_at_most`: `v <= max` under the derived order. */
  predicate IsAtMost(v: Semver, max: Semver) {
    LessOrEqual(v, max)
  }

  /** `Compare` is the order `==` agrees with: `Equal` exactly for equal versions. */
  lemma CompareEqual(a: Semver, b: Semver)
    ensures Compare(a, b) == Equal <==> a == b
  {
  }

  /** `<=` is a total order: reflexive, antisymmetric, transitive and total. */
  lemma LessOrEqualTotalOrder(a: Semver, b: Semver, c: Semver)
    ensures LessOrEqual(a, a)
    ensures LessOrEqual(a, b) && LessOrEqual(b, a) ==> a == b
    ensures LessOrEqual(a, b) && LessOrEqual(b, c) ==> LessOrEqual(a, c)
    ensures LessOrEqual(a, b) || LessOrEqual(b, a)
  {
  }

  /** A minor update is strictly newer than the version it updates. */
  lemma MinorUpdateIsNewer(v: Semver, other: Semver)
    requires IsMinorUpdateOf(v, other)
    ensures Compare(other, v) == Ordering.Less
  {
  }

  /** The comparisons of the source's tests (semver.rs, lines 111-186). */
  lemma OrderExamples()
    ensures Compare(Semver(1, 0, 0), Semver(2, 0, 0)) == Ordering.Less
    ensures Compare(Semver(1, 2, 0), Semver(1, 3, 0)) == Ordering.Less
    ensures Compare(Semver(1, 2, 3), Semver(1, 2, 4)) == Ordering.Less
    ensures Compare(Semver(1, 2, 4), Semver(1, 3, 0)) == Ordering.Less
    ensures Compare(Semver(1, 3, 0), Semver(2, 0, 0)) == Ordering.Less
  {
  }

  /** Minor-update examples: a clean minor bump counts, patch drift or a major bump does not. */
  lemma MinorUpdateExamples()
    ensures IsMinorUpdateOf(Semver(1, 3, 0), Semver(1, 2, 5))
    ensures !IsMinorUpdateOf(Semver(1, 2, 6), Semver(1, 2, 5))
    ensures !IsMinorUpdateOf(Semver(1, 3, 1), Semver(1, 2, 5))
    ensures !IsMinorUpdateOf(Semver(2, 0, 0), Semver(1, 2, 5))
  {
  }

  lemma SplitDotted(a: string, b: string, c: string)
    requires '.' !in a && '.' !in b && '.' !in c
    ensures Split(a + "." + b + "." + c, '.') == [a, b, c]
  {
    SplitJoin([a, b, c], '.');
    Join3(a, b, c, '.');
  }

  /** A dash-free string of three dot-free parts is parsed part by part, major first. */
  lemma ParseDotted(a: string, b: string, c: string)
    requires '.' !in a && '.' !in b && '.' !in c
    requires '-' !in a && '-' !in b && '-' !in c
    ensures ParseU32(a).None? ==> Parse(a + "." + b + "." + c) == Err(InvalidNumber("major"))
    ensures ParseU32(a).Some? && ParseU32(b).None? ==> Parse(a + "." + b + "." + c) == Err(InvalidNumber("minor"))
    ensures ParseU32(a).Some? && ParseU32(b).Some? && ParseU32(c).None? ==>
              Parse(a + "." + b + "." + c) == Err(InvalidNumber("patch"))
    ensures ParseU32(a).Some? && ParseU32(b).Some? && ParseU32(c).Some? ==>
              Parse(a + "." + b + "." + c) == Ok(Semver(ParseU32(a).value, ParseU32(b).value, ParseU32(c).value))
  {
    SplitDotted(a, b, c);
    assert '-' !in a + "." + b + "." + c;
  }

  /** A single decimal digit is a valid part. */
  lemma SingleDigitPart(d: nat)
    requires d < 10
    ensures ParseU32([DigitChar(d)]) == Some(d)
  {
    var s := [DigitChar(d)];
    assert s[..0] == [];
    assert AllDigits(s) && DigitsValue(s) == d;
  }

  /** The parser's test cases (semver.rs, lines 188-247). */
  lemma ParseExamples()
    ensures Parse("1.2.3") == Ok(Semver(1, 2, 3))
    ensures Parse("1.2.3-beta.1") == Err(Prerelease)
    ensures Parse("1.2") == Err(InvalidFormat)
    ensures Parse("1.2.3.4") == Err(InvalidFormat)
    ensures Parse("abc.2.3") == Err(InvalidNumber("major"))
    ensures Parse("1.def.3") == Err(InvalidNumber("minor"))
    ensures Parse("1.2.ghi") == Err(InvalidNumber("patch"))
  {
    ParsesValid();
    assert '-' in "1.2.3-beta.1";
    TooFewParts();
    TooManyParts();
    BadMajor();
    BadMinor();
    BadPatch();
  }

  lemma ParsesValid()
    ensures Parse("1.2.3") == Ok(Semver(1, 2, 3))
  {
    assert "1.2.3" == "1" + "." + "2" + "." + "3";
    ParseDotted("1", "2", "3");
    SingleDigitPart(1);
    SingleDigitPart(2);
    SingleDigitPart(3);
  }

  lemma TooFewParts()
    ensures Parse("1.2") == Err(InvalidFormat)
  {
    SplitJoin(["1", "2"], '.');
    assert Join(["1", "2"], '.') == "1.2";
  }

  lemma TooManyParts()
    ensures Parse("1.2.3.4") == Err(InvalidFormat)
  {
    var tail := "2" + "." + "3" + "." + "4";
    assert "1.2.3.4" == "1" + ['.'] + tail;
    SplitDotted("2", "3", "4");
    SplitPrefix("1", tail, '.');
  }

  lemma BadMajor()
    ensures Parse("abc.2.3") == Err(InvalidNumber("major"))
  {
    assert "abc.2.3" == "abc" + "." + "2" + "." + "3";
    ParseDotted("abc", "2", "3");
    assert !IsDigit("abc"[0]);
  }

  lemma BadMinor()
    ensures Parse("1.def.3") == Err(InvalidNumber("minor"))
  {
    assert "1.def.3" == "1" + "." + "def" + "." + "3";
    ParseDotted("1", "def", "3");
    SingleDigitPart(1);
    assert !IsDigit("def"[0]);
  }

  lemma BadPatch()
    ensures Parse("1.2.ghi") == Err(InvalidNumber("patch"))
  {
    assert "1.2.ghi" == "1" + "." + "2" + "." + "ghi";
    ParseDotted("1", "2", "ghi");
    SingleDigitPart(1);
    SingleDigitPart(2);
    assert !IsDigit("ghi"[0]);
  }

  /** A dash anywhere is a pre-release, even where the part count is also wrong. */
  lemma PrereleaseBeforeFormat()
    ensures |Split("1.2-3", '.')| == 2
    ensures Parse("1.2-3") == Err(Prerelease)
  {
    assert '-' in "1.2-3";
    SplitJoin(["1", "2-3"], '.');
    assert Join(["1", "2-3"], '.') == "1.2-3";
  }

  /** Build metadata is not recognised: it makes the patch part an invalid number. */
  lemma BuildMetadataIsInvalidPatch()
    ensures Parse("1.2.3+b") == Err(InvalidNumber("patch"))
  {
    assert "1.2.3+b" == "1" + "." + "2" + "." + "3+b";
    ParseDotted("1", "2", "3+b");
    SingleDigitPart(1);
    SingleDigitPart(2);
    assert !IsDigit("3+b"[1]);
  }

  /** Leading zeros are accepted, and display drops them. */
  lemma LeadingZerosAccepted()
    ensures Parse("01.3.0") == Ok(Semver(1, 3, 0))
    ensures Format(Semver(1, 3, 0)) == "1.3.0"
  {
    assert "01.3.0" == "01" + "." + "3" + "." + "0";
    ParseDotted("01", "3", "0");
    assert DigitsValue("01") == 1 by {
      assert "01"[..1] == "0";
      assert "0"[..0] == [];
    }
    SingleDigitPart(3);
    SingleDigitPart(0);
    ParseSingleDigits(1, 3, 0);
    assert [DigitChar(1), '.', DigitChar(3), '.', DigitChar(0)] == "1.3.0";
  }

  /** Like `u32::from_str`, a part may carry a leading `+`. */
  lemma PlusSignAccepted()
    ensures Parse("+1.3.0") == Ok(Semver(1, 3, 0))
  {
    assert "+1.3.0" == "+1" + "." + "3" + "." + "0";
    ParseDotted("+1", "3", "0");
    assert "+1"[1..] == "1";
    assert DigitsValue("1") == 1 by { assert "1"[..0] == []; }
    SingleDigitPart(3);
    SingleDigitPart(0);
  }

  lemma DigitsOfU32Max()
    ensures DigitsValue("429496729") == 429496729
  {
    assert "429496729"[..8] == "42949672";
    assert "42949672"[..7] == "4294967";
    assert "4294967"[..6] == "429496";
    assert "429496"[..5] == "42949";
    assert "42949"[..4] == "4294";
    assert "4294"[..3] == "429";
    assert "429"[..2] == "42";
    assert "42"[..1] == "4";
  }

  lemma DigitsPastU32Max()
    ensures AllDigits("4294967296") && DigitsValue("4294967296") == U32_MAX + 1
    ensures AllDigits("4294967295") && DigitsValue("4294967295") == U32_MAX
  {
    DigitsOfU32Max();
    assert "4294967296"[..9] == "429496729";
    assert "4294967295"[..9] == "429496729";
  }

  lemma U32Limit()
    ensures ParseU32("4294967296") == None
    ensures ParseU32("4294967295") == Some(U32_MAX)
  {
    DigitsPastU32Max();
  }

  /** Each part must fit in 32 bits: one past the maximum is an invalid number. */
  lemma MajorOverflow()
    ensures Parse("4294967296.0.0") == Err(InvalidNumber("major"))
  {
    assert "4294967296.0.0" == "4294967296" + "." + "0" + "." + "0";
    ParseDotted("4294967296", "0", "0");
    U32Limit();
  }

  /** Versions written with single digits parse to themselves (a shorthand for examples). */
  lemma ParseSingleDigits(a: nat, b: nat, c: nat)
    requires a < 10 && b < 10 && c < 10
    ensures Format(Semver(a, b, c)) == [DigitChar(a), '.', DigitChar(b), '.', DigitChar(c)]
    ensures Parse([DigitChar(a), '.', DigitChar(b), '.', DigitChar(c)]) == Ok(Semver(a, b, c))
  {
    ParseFormat(Semver(a, b, c));
  }
}
