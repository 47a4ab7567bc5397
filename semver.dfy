/**
 * The semantic version value: parsing a version string into its five
 * fields, the precedence comparison `_Compare` (-1, 0 or 1, never looking at
 * the build), exact equality on all five fields, and the relational operators
 * derived from `_Compare`. Equality and precedence are separate relations:
 * versions that differ only in build or in letter case have equal precedence
 * but are not equal.
 */
module Semver {
  import opened Wrappers
  import opened Text
  import opened Grammar
  import opened Precedence

  /** A parsed version; pre-release and build are kept as the raw matched text. */
  datatype SemVer = SemVer(
    major: nat, minor: nat, patch: nat,
    prerelease: Option<string>, build: Option<string>)

  /** Raised for an absent or malformed version string; carries that input. */
  datatype ParseError = ParseError(version: Option<string>)

  /**
   * `SemVer(version)`, through `_FromString`: an absent input or one that
   * `_SEMVER` does not match is an error; otherwise the three numbers are the
   * integer values of their digit groups and pre-release and build are the
   * matched text.
   */
  function FromString(version: Option<string>): (r: Result<SemVer, ParseError>)
    ensures version.None? ==> r == Err(ParseError(None))
    ensures r.Err? ==> r.error == ParseError(version)
    ensures r.Ok? ==> version.Some? && Match(version.value).Some?
  {
    match version
    case None => Err(ParseError(None))
    case Some(s) =>
      match Match(s)
      case None => Err(ParseError(version))
      case Some(g) =>
        Ok(SemVer(DigitsValue(g.major), DigitsValue(g.minor), DigitsValue(g.patch), g.prerelease, g.build))
  }

  /** `_ComparePrereleaseStrings`: no pre-release ranks above any pre-release. */
  function ComparePrereleaseStrings(s1: Option<string>, s2: Option<string>): (r: int)
    ensures -1 <= r <= 1
    ensures s1 == s2 ==> r == 0
    ensures s1.None? && s2.Some? ==> r == 1
    ensures s1.Some? && s2.None? ==> r == -1
  {
    if s1.None? && s2.Some? then 1
    else if s2.None? && s1.Some? then -1
    else if s1 == s2 then 0
    else CmpList(GetParts(s1.value), GetParts(s2.value))
  }

  /** `cmp((a.major, a.minor, a.patch), (b.major, b.minor, b.patch))`. */
  function CompareCore(a: SemVer, b: SemVer): (r: int)
    ensures -1 <= r <= 1
    ensures r == 0 <==> (a.major, a.minor, a.patch) == (b.major, b.minor, b.patch)
  {
    if a.major != b.major then CmpInt(a.major, b.major)
    else if a.minor != b.minor then CmpInt(a.minor, b.minor)
    else CmpInt(a.patch, b.patch)
  }

  /** `_Compare`: the numbers decide first, then the pre-release; the build never. */
  function Compare(a: SemVer, b: SemVer): (r: int)
    ensures r == -1 || r == 0 || r == 1
    ensures r == 0 ==> (a.major, a.minor, a.patch) == (b.major, b.minor, b.patch)
    ensures a == b ==> r == 0
  {
    var core := CompareCore(a, b);
    if core != 0 then core else ComparePrereleaseStrings(a.prerelease, b.prerelease)
  }

  /**
   * Two pre-releases compare as their lists of converted identifiers: the
   * shortcut for identical strings agrees with the list comparison.
   */
  lemma ComparePrereleaseByIdentifiers(s1: string, s2: string)
    ensures ComparePrereleaseStrings(Some(s1), Some(s2)) == CmpList(GetParts(s1), GetParts(s2))
  {
    CmpListZero(GetParts(s1), GetParts(s2));
  }

  /** Precedence is antisymmetric: swapping the operands negates the result. */
  lemma CompareAntisymmetric(a: SemVer, b: SemVer)
    ensures Compare(a, b) == -Compare(b, a)
  {
    if a.prerelease.Some? && b.prerelease.Some? {
      ComparePrereleaseByIdentifiers(a.prerelease.value, b.prerelease.value);
      ComparePrereleaseByIdentifiers(b.prerelease.value, a.prerelease.value);
      CmpListAntisymmetric(GetParts(a.prerelease.value), GetParts(b.prerelease.value));
    }
  }

  /** `__eq__`: all five fields identical, build and letter case included. */
  predicate Equal(a: SemVer, b: SemVer): (r: bool)
    ensures r <==> a == b
  {
    (a.major, a.minor, a.patch, a.prerelease, a.build) ==
    (b.major, b.minor, b.patch, b.prerelease, b.build)
  }

  /** `__ne__`. */
  predicate NotEqual(a: SemVer, b: SemVer): (r: bool)
    ensures r <==> a != b
  {
    !Equal(a, b)
  }

  /** `__lt__`. */
  predicate Less(a: SemVer, b: SemVer): (r: bool)
    ensures r <==> Compare(a, b) == -1
    ensures r ==> a != b
  {
    Compare(a, b) < 0
  }

  /** `__gt__`: `a > b` exactly when `b < a`. */
  predicate Greater(a: SemVer, b: SemVer): (r: bool)
    ensures r <==> Less(b, a)
  {
    CompareAntisymmetric(a, b);
    Compare(a, b) > 0
  }

  /** `__le__`: `not a > b`, that is, less or of equal precedence. */
  predicate LessOrEqual(a: SemVer, b: SemVer): (r: bool)
    ensures r <==> Less(a, b) || Compare(a, b) == 0
  {
    !Greater(a, b)
  }

  /** `__ge__`: `not a < b`, that is, `b <= a`. */
  predicate GreaterOrEqual(a: SemVer, b: SemVer): (r: bool)
    ensures r <==> LessOrEqual(b, a)
    ensures r <==> Greater(a, b) || Compare(a, b) == 0
  {
    CompareAntisymmetric(a, b);
    !Less(a, b)
  }
}
