/**
 * The version grammar: the building blocks `_DIGITS`, `_ALPHA_NUM`,
 * `_STRICT_ALPHA_NUM`, the pre-release and build lists and the anchored
 * `_SEMVER` pattern, written as recognizers over strings instead of
 * regular expressions. `Match` plays the part of `re.match(_SEMVER, s)` and
 * yields the five named groups as raw text; `Derives` is the grammar read as
 * a concatenation of its parts, against which `Match` is proved.
 */
module Grammar {
  import opened Wrappers
  import opened Text

  /** `_DIGITS`: "0", or a non-zero digit followed by any digits (no leading zero). */
  predicate IsDigits(s: string) {
    IsAllDigits(s) && (s[0] == '0' ==> |s| == 1)
  }

  predicate IsAlphaNumChar(c: char) {
    IsDigit(c) || IsAsciiLetter(c) || c == '-'
  }

  /** `_ALPHA_NUM`: one or more digits, ASCII letters or dashes. */
  predicate IsAlphaNum(s: string) {
    |s| > 0 && forall i :: 0 <= i < |s| ==> IsAlphaNumChar(s[i])
  }

  /** `_STRICT_ALPHA_NUM`: digits, letters and dashes with at least one letter or dash somewhere. */
  predicate IsStrictAlphaNum(s: string) {
    IsAlphaNum(s) && exists i :: 0 <= i < |s| && (IsAsciiLetter(s[i]) || s[i] == '-')
  }

  /** `_PRE_RELEASE_IDENTIFIER`: a numeric identifier or a strict alphanumeric one. */
  predicate IsPrereleaseIdent(s: string) {
    IsDigits(s) || IsStrictAlphaNum(s)
  }

  /**
   * `_PRE_RELEASE`: identifiers separated by dots. No identifier contains a
   * dot, so the text matches exactly when every piece between dots is one.
   */
  predicate IsPrerelease(s: string) {
    var ids := Split(s, '.');
    forall k :: 0 <= k < |ids| ==> IsPrereleaseIdent(ids[k])
  }

  /** `_BUILD`: `_ALPHA_NUM` identifiers separated by dots. */
  predicate IsBuild(s: string) {
    var ids := Split(s, '.');
    forall k :: 0 <= k < |ids| ==> IsAlphaNum(ids[k])
  }

  /** The five named groups of `_SEMVER`, as the raw text they matched. */
  datatype Groups = Groups(
    major: string, minor: string, patch: string,
    prerelease: Option<string>, build: Option<string>)

  /** The text a match with these groups spans: `major.minor.patch[-prerelease][+build]`. */
  function Assemble(g: Groups): string {
    g.major + "." + g.minor + "." + g.patch + Tagged('-', g.prerelease) + Tagged('+', g.build)
  }

  /** `s` is the whole of `_SEMVER` with exactly these groups. */
  predicate Derives(s: string, g: Groups) {
    && IsDigits(g.major) && IsDigits(g.minor) && IsDigits(g.patch)
    && (g.prerelease.Some? ==> IsPrerelease(g.prerelease.value))
    && (g.build.Some? ==> IsBuild(g.build.value))
    && s == Assemble(g)
  }

  /** `s` belongs to the language of `_SEMVER`. */
  ghost predicate InLanguage(s: string) {
    exists g :: Derives(s, g)
  }

  /**
   * `re.match(_SEMVER, s)`. A build never contains '+' and nothing before
   * it does, so the build starts after the first '+'; the core never contains
   * '-', so the pre-release starts after the first '-' before that; the core
   * is then three dot-separated digit groups. The pattern is taken as anchored
   * at both ends: Python's `$` would also let one trailing newline through,
   * which this recognizer rejects.
   */
  function Match(s: string): (m: Option<Groups>)
    ensures m.Some? ==> Derives(s, m.value)
  {
    var (head, build) := Partition(s, '+');
    var (core, prerelease) := Partition(head, '-');
    var nums := Split(core, '.');
    if && |nums| == 3
       && IsDigits(nums[0]) && IsDigits(nums[1]) && IsDigits(nums[2])
       && (prerelease.Some? ==> IsPrerelease(prerelease.value))
       && (build.Some? ==> IsBuild(build.value))
    then
      JoinSplit(core, '.');
      JoinThree(nums);
      Some(Groups(nums[0], nums[1], nums[2], prerelease, build))
    else
      None
  }

  /** Characters a pre-release can contain: none of them is '+'. */
  lemma PrereleaseHasNoPlus(p: string)
    requires IsPrerelease(p)
    ensures '+' !in p
  {
    var ids := Split(p, '.');
    forall k | 0 <= k < |ids| ensures '+' !in ids[k] {
      IdentChars(ids[k]);
    }
    JoinAvoids(ids, '.', '+');
    JoinSplit(p, '.');
  }

  /** Three groups joined by dots, written out. */
  lemma JoinThree(nums: seq<string>)
    requires |nums| == 3
    ensures Join(nums, '.') == nums[0] + "." + nums[1] + "." + nums[2]
  {
    var tail := nums[1..];
    assert tail[1..] == [nums[2]];
    assert Join(tail, '.') == nums[1] + ['.'] + nums[2];
    assert Join(nums, '.') == nums[0] + ['.'] + Join(tail, '.');
  }

  /** Every character of a pre-release identifier is a digit, a letter or a dash. */
  lemma IdentChars(x: string)
    requires IsPrereleaseIdent(x)
    ensures forall i :: 0 <= i < |x| ==> IsAlphaNumChar(x[i])
    ensures '+' !in x && '.' !in x
  {
  }

  /** A strict alphanumeric identifier is an alphanumeric one that is not all digits. */
  lemma StrictAlphaNumNotAllDigits(s: string)
    ensures IsStrictAlphaNum(s) <==> IsAlphaNum(s) && !IsAllDigits(s)
  {
    if IsAlphaNum(s) && !IsAllDigits(s) {
      var i :| 0 <= i < |s| && !IsDigit(s[i]);
      assert IsAsciiLetter(s[i]) || s[i] == '-';
    }
  }

  /** Digit groups contain neither '-' nor '+' nor '.'. */
  lemma DigitsHaveNoMarks(s: string)
    requires IsDigits(s)
    ensures '-' !in s && '+' !in s && '.' !in s
  {
    assert forall i :: 0 <= i < |s| ==> IsDigit(s[i]);
  }

  /** Whatever text derives from the grammar, `Match` finds it, with exactly those groups. */
  lemma MatchComplete(s: string, g: Groups)
    requires Derives(s, g)
    ensures Match(s) == Some(g)
  {
    DigitsHaveNoMarks(g.major);
    DigitsHaveNoMarks(g.minor);
    DigitsHaveNoMarks(g.patch);
    var core := g.major + "." + g.minor + "." + g.patch;
    var head := core + Tagged('-', g.prerelease);
    assert '-' !in core;
    assert '+' !in head by {
      if g.prerelease.Some? {
        PrereleaseHasNoPlus(g.prerelease.value);
      }
    }
    assert s == head + Tagged('+', g.build);
    PartitionTagged(head, '+', g.build);
    PartitionTagged(core, '-', g.prerelease);
    var nums := [g.major, g.minor, g.patch];
    JoinThree(nums);
    SplitJoin(nums, '.');
  }

  /** `Match` succeeds exactly on the language of the grammar. */
  lemma MatchIffInLanguage(s: string)
    ensures Match(s).Some? <==> InLanguage(s)
  {
    if InLanguage(s) {
      var g :| Derives(s, g);
      MatchComplete(s, g);
    }
  }

  /**
   * `_PRE_RELEASE` read as the regular expression `id(\.id)*`: any one or more
   * identifiers joined by dots form a pre-release, and splitting it gives them
   * back. (Conversely a pre-release is the join of its pieces, by `JoinSplit`.)
   */
  lemma {:induction false} PrereleaseGrammar(ids: seq<string>)
    requires |ids| >= 1 && forall k :: 0 <= k < |ids| ==> IsPrereleaseIdent(ids[k])
    ensures IsPrerelease(Join(ids, '.'))
    ensures Split(Join(ids, '.'), '.') == ids
  {
    forall k | 0 <= k < |ids| ensures '.' !in ids[k] {
      IdentChars(ids[k]);
    }
    SplitJoin(ids, '.');
  }

  /** `_BUILD` read as `id(\.id)*`, in the same way. */
  lemma {:induction false} BuildGrammar(ids: seq<string>)
    requires |ids| >= 1 && forall k :: 0 <= k < |ids| ==> IsAlphaNum(ids[k])
    ensures IsBuild(Join(ids, '.'))
    ensures Split(Join(ids, '.'), '.') == ids
  {
    forall k | 0 <= k < |ids| ensures '.' !in ids[k] {
      assert forall i :: 0 <= i < |ids[k]| ==> IsAlphaNumChar(ids[k][i]);
    }
    SplitJoin(ids, '.');
  }
}
