/**
 * What parsing and precedence promise, stated over all inputs: parsing
 * succeeds exactly on the grammar and loses nothing (rendering a parsed
 * version gives the input back, so equality is equality of the strings);
 * precedence is a total preorder that looks at the numbers first, ranks a
 * release above its pre-releases, compares pre-release identifiers one by
 * one and never consults the build.
 */
module SemverLaws {
  import opened Wrappers
  import opened Text
  import opened Grammar
  import opened Precedence
  import opened Semver

  // Parsing

  /** Parsing fails exactly when the input is absent or outside the grammar. */
  lemma ParseOkIffInLanguage(version: Option<string>)
    ensures FromString(version).Ok? <==> version.Some? && InLanguage(version.value)
  {
    if version.Some? {
      MatchIffInLanguage(version.value);
    }
  }

  /**
   * On text the grammar derives, the numbers are the integer values of the
   * digit groups and pre-release and build are the raw groups, absent when
   * the grammar left them out.
   */
  lemma ParseFields(s: string, g: Groups)
    requires Derives(s, g)
    ensures FromString(Some(s)) ==
      Ok(SemVer(DigitsValue(g.major), DigitsValue(g.minor), DigitsValue(g.patch), g.prerelease, g.build))
  {
    MatchComplete(s, g);
  }

  /** The pre-release and build a parsed version can carry. */
  predicate WellFormed(v: SemVer) {
    && (v.prerelease.Some? ==> IsPrerelease(v.prerelease.value))
    && (v.build.Some? ==> IsBuild(v.build.value))
  }

  /** The version written out as `major.minor.patch[-prerelease][+build]`. */
  function Render(v: SemVer): string {
    Assemble(Groups(Show(v.major), Show(v.minor), Show(v.patch), v.prerelease, v.build))
  }

  lemma ShowIsDigits(n: nat)
    ensures IsDigits(Show(n)) && DigitsValue(Show(n)) == n
  {
    ShowCanonical(n);
  }

  /** Every well-formed version is what parsing its rendering gives. */
  lemma RenderParse(v: SemVer)
    requires WellFormed(v)
    ensures FromString(Some(Render(v))) == Ok(v)
  {
    ShowIsDigits(v.major);
    ShowIsDigits(v.minor);
    ShowIsDigits(v.patch);
    ParseFields(Render(v), Groups(Show(v.major), Show(v.minor), Show(v.patch), v.prerelease, v.build));
  }

  /** A parsed version is well formed and renders as the very string it came from. */
  lemma ParseRender(s: string, v: SemVer)
    requires FromString(Some(s)) == Ok(v)
    ensures WellFormed(v) && Render(v) == s
  {
    var g := Match(s).value;
    ShowOfValue(g.major);
    ShowOfValue(g.minor);
    ShowOfValue(g.patch);
  }

  /**
   * Two parsed versions are `==` exactly when they were parsed from the same
   * string, build and letter case included.
   */
  lemma EqualIffSameString(s1: string, s2: string, v1: SemVer, v2: SemVer)
    requires FromString(Some(s1)) == Ok(v1) && FromString(Some(s2)) == Ok(v2)
    ensures Equal(v1, v2) <==> s1 == s2
  {
    ParseRender(s1, v1);
    ParseRender(s2, v2);
  }

  // Precedence

  /** `_Compare` is transitive. */
  lemma CompareTransitive(a: SemVer, b: SemVer, c: SemVer)
    requires Compare(a, b) <= 0 && Compare(b, c) <= 0
    ensures Compare(a, c) <= 0
  {
    if && a.prerelease.Some? && b.prerelease.Some? && c.prerelease.Some?
       && CompareCore(a, b) == 0 && CompareCore(b, c) == 0
    {
      var p, q, r := a.prerelease.value, b.prerelease.value, c.prerelease.value;
      ComparePrereleaseByIdentifiers(p, q);
      ComparePrereleaseByIdentifiers(q, r);
      ComparePrereleaseByIdentifiers(p, r);
      CmpListTransitive(GetParts(p), GetParts(q), GetParts(r));
    }
  }

  /** Strictly lower, then lower or equal, is strictly lower. */
  lemma LessThenAtMost(a: SemVer, b: SemVer, c: SemVer)
    requires Compare(a, b) < 0 && Compare(b, c) <= 0
    ensures Compare(a, c) < 0
  {
    CompareTransitive(a, b, c);
    CompareAntisymmetric(a, b);
    CompareAntisymmetric(a, c);
    if Compare(a, c) == 0 {
      CompareTransitive(b, c, a);
    }
  }

  /** `<` is transitive. */
  lemma LessTransitive(a: SemVer, b: SemVer, c: SemVer)
    requires Less(a, b) && Less(b, c)
    ensures Less(a, c)
  {
    LessThenAtMost(a, b, c);
  }

  /** Equal precedence is an equivalence: reflexive, symmetric and transitive. */
  lemma SamePrecedenceEquivalence(a: SemVer, b: SemVer, c: SemVer)
    ensures Compare(a, a) == 0
    ensures Compare(a, b) == 0 ==> Compare(b, a) == 0
    ensures Compare(a, b) == 0 && Compare(b, c) == 0 ==> Compare(a, c) == 0
  {
    CompareAntisymmetric(a, b);
    if Compare(a, b) == 0 && Compare(b, c) == 0 {
      CompareAntisymmetric(b, c);
      CompareTransitive(a, b, c);
      CompareTransitive(c, b, a);
      CompareAntisymmetric(a, c);
    }
  }

  /** Exactly one of `a < b`, equal precedence, `a > b` holds. */
  lemma Trichotomy(a: SemVer, b: SemVer)
    ensures Less(a, b) || Compare(a, b) == 0 || Greater(a, b)
    ensures !(Less(a, b) && Greater(a, b))
    ensures Compare(a, b) == 0 ==> !Less(a, b) && !Greater(a, b)
  {
  }

  /** `(major, minor, patch)` strictly below the other's, in lexicographic order. */
  predicate CoreBelow(a: SemVer, b: SemVer) {
    || a.major < b.major
    || (a.major == b.major && a.minor < b.minor)
    || (a.major == b.major && a.minor == b.minor && a.patch < b.patch)
  }

  /** When the numbers differ they alone decide, whatever the pre-releases and builds. */
  lemma CoreDecides(a: SemVer, b: SemVer)
    requires (a.major, a.minor, a.patch) != (b.major, b.minor, b.patch)
    ensures Compare(a, b) == (if CoreBelow(a, b) then -1 else 1)
  {
  }

  /**
   * With the same numbers, a release ranks above any pre-release, and equal
   * pre-release strings (both absent included) have equal precedence.
   */
  lemma ReleaseAbovePrerelease(a: SemVer, b: SemVer)
    requires (a.major, a.minor, a.patch) == (b.major, b.minor, b.patch)
    ensures a.prerelease.None? && b.prerelease.Some? ==> Compare(a, b) == 1
    ensures a.prerelease == b.prerelease ==> Compare(a, b) == 0
  {
  }

  /** With the same numbers, two pre-releases compare as their lists of converted identifiers. */
  lemma PrereleaseByIdentifiers(a: SemVer, b: SemVer)
    requires (a.major, a.minor, a.patch) == (b.major, b.minor, b.patch)
    requires a.prerelease.Some? && b.prerelease.Some?
    ensures Compare(a, b) == CmpList(GetParts(a.prerelease.value), GetParts(b.prerelease.value))
  {
    ComparePrereleaseByIdentifiers(a.prerelease.value, b.prerelease.value);
  }

  /**
   * With the same numbers, the first pre-release identifier that differs
   * decides (see `IdentRules` for how two identifiers compare).
   */
  lemma FirstDifferentIdentifierDecides(
    a: SemVer, b: SemVer, p: seq<Ident>, x: Ident, y: Ident, u: seq<Ident>, v: seq<Ident>)
    requires (a.major, a.minor, a.patch) == (b.major, b.minor, b.patch)
    requires a.prerelease.Some? && GetParts(a.prerelease.value) == p + [x] + u
    requires b.prerelease.Some? && GetParts(b.prerelease.value) == p + [y] + v
    requires x != y
    ensures Compare(a, b) == CmpIdent(x, y)
  {
    PrereleaseByIdentifiers(a, b);
    CmpListFirstDifference(p, x, y, u, v);
  }

  /** With the same numbers, a pre-release extended by more identifiers ranks higher. */
  lemma PrereleasePrefixLower(a: SemVer, b: SemVer, s: string, t: string)
    requires (a.major, a.minor, a.patch) == (b.major, b.minor, b.patch)
    requires a.prerelease == Some(s) && b.prerelease == Some(s + "." + t)
    ensures Compare(a, b) == -1
  {
    PrereleaseByIdentifiers(a, b);
    GetPartsConcat(s, t);
    var ps, pt := GetParts(s), GetParts(t);
    assert ps == (ps + pt)[..|ps|];
    CmpListPrefix(ps, ps + pt);
  }

  /** With the same numbers, pre-releases that agree up to letter case have equal precedence. */
  lemma PrereleaseCaseInsensitive(a: SemVer, b: SemVer)
    requires (a.major, a.minor, a.patch) == (b.major, b.minor, b.patch)
    requires a.prerelease.Some? && b.prerelease.Some?
    requires Lower(a.prerelease.value) == Lower(b.prerelease.value)
    ensures Compare(a, b) == 0
  {
    PrereleaseByIdentifiers(a, b);
    GetPartsLower(a.prerelease.value);
    GetPartsLower(b.prerelease.value);
    CmpListZero(GetParts(a.prerelease.value), GetParts(b.prerelease.value));
  }

  /** The build never changes precedence. */
  lemma BuildIgnored(a: SemVer, b: SemVer, x: Option<string>, y: Option<string>)
    ensures Compare(a.(build := x), b.(build := y)) == Compare(a, b)
  {
  }

  /** `>=` is `not <` and `<=` is `not >`; `!=` is `not ==`. */
  lemma DerivedOperators(a: SemVer, b: SemVer)
    ensures GreaterOrEqual(a, b) <==> !Less(a, b)
    ensures LessOrEqual(a, b) <==> !Greater(a, b)
    ensures NotEqual(a, b) <==> !Equal(a, b)
    ensures Equal(a, b) ==> Compare(a, b) == 0
  {
  }
}
