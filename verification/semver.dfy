/**
 * Three-part schema versions "MAJOR.MINOR.PATCH": reading, printing and the
 * precedence order of section 11 of Semantic Versioning 2.0.0 (numeric
 * comparison of MAJOR, then MINOR, then PATCH; no pre-release tags).
 */
module SemVer {

  import opened Base
  import opened Strings

  datatype Version = Version(major: nat, minor: nat, patch: nat)

  const Zero := Version(0, 0, 0)

  /** The text form, e.g. "1.2.0". */
  function Format(v: Version): string
  {
    NatToString(v.major) + "." + NatToString(v.minor) + "." + NatToString(v.patch)
  }

  /**
   * A numeric identifier in the sense of section 2 of Semantic Versioning
   * 2.0.0: decimal digits without a superfluous leading zero.
   */
  predicate NumericIdentifier(s: string)
  {
    |s| >= 1 && AllDigits(s) && (s[0] == '0' ==> |s| == 1)
  }

  /** Reads "MAJOR.MINOR.PATCH"; anything else is not a version. */
  function Parse(s: string): Option<Version>
  {
    var parts := Split(s, '.');
    if |parts| == 3 && NumericIdentifier(parts[0]) && NumericIdentifier(parts[1]) && NumericIdentifier(parts[2])
    then Some(Version(DecimalValue(parts[0]), DecimalValue(parts[1]), DecimalValue(parts[2])))
    else None
  }

  // ---------------------------------------------------------------------
  // Precedence
  // ---------------------------------------------------------------------

  /** `a` has lower precedence than `b`. */
  predicate Less(a: Version, b: Version)
  {
    || a.major < b.major
    || (a.major == b.major && a.minor < b.minor)
    || (a.major == b.major && a.minor == b.minor && a.patch < b.patch)
  }

  predicate LessEq(a: Version, b: Version)
  {
    a == b || Less(a, b)
  }

  lemma LessIrreflexive(a: Version)
    ensures !Less(a, a)
  {
  }

  lemma LessTransitive(a: Version, b: Version, c: Version)
    requires Less(a, b) && Less(b, c)
    ensures Less(a, c)
  {
  }

  /** Any two versions are equal or ordered one way round, and never both ways. */
  lemma LessTrichotomy(a: Version, b: Version)
    ensures Less(a, b) || a == b || Less(b, a)
    ensures !(Less(a, b) && Less(b, a))
  {
  }

  /** The order is numeric, not textual: "1.9.0" precedes "1.10.0" although it sorts after it as text. */
  lemma NumericNotTextual()
    ensures Less(Version(1, 9, 0), Version(1, 10, 0))
    ensures Format(Version(1, 9, 0)) == "1.9.0" && Format(Version(1, 10, 0)) == "1.10.0"
  {
    assert NatToString(10) == "10" by {
      assert NatToString(1) == "1";
      assert NatToString(0) == "0";
    }
  }

  // ---------------------------------------------------------------------
  // Round trips between text and versions
  // ---------------------------------------------------------------------

  /** Every version reads back from its text form. */
  lemma ParseFormat(v: Version)
    ensures Parse(Format(v)) == Some(v)
  {
    var a, b, c := NatToString(v.major), NatToString(v.minor), NatToString(v.patch);
    assert NoChar(a, '.') && NoChar(b, '.') && NoChar(c, '.');
    assert Format(v) == a + ['.'] + (b + ['.'] + c);
    SplitAfterPiece(a, '.', b + ['.'] + c);
    SplitAfterPiece(b, '.', c);
    SplitWithout(c, '.');
    assert Split(Format(v), '.') == [a, b, c];
    DecimalOfNatToString(v.major);
    DecimalOfNatToString(v.minor);
    DecimalOfNatToString(v.patch);
  }

  /** Every text that reads as a version is exactly that version's text form. */
  lemma FormatParse(s: string)
    requires Parse(s).Some?
    ensures Format(Parse(s).value) == s
  {
    var parts := Split(s, '.');
    NatToStringOfDecimal(parts[0]);
    NatToStringOfDecimal(parts[1]);
    NatToStringOfDecimal(parts[2]);
    JoinSplit(s, '.');
    assert Join(parts[2..], ".") == parts[2];
    assert Join(parts[1..], ".") == parts[1] + "." + parts[2] by {
      assert parts[1..][1..] == parts[2..];
    }
    assert Join(parts, ".") == parts[0] + "." + (parts[1] + "." + parts[2]);
  }

  /** Distinct versions have distinct text forms. */
  lemma FormatInjective(a: Version, b: Version)
    requires Format(a) == Format(b)
    ensures a == b
  {
    ParseFormat(a);
    ParseFormat(b);
  }
}
