/**
 * Concrete versions: strings the grammar rejects, the precedence chain of
 * Semantic Versioning 2.0.0 item 11, numeric against lexical identifiers,
 * and pairs of equal precedence that are not `==`.
 */
module Scenarios {
  import opened Wrappers
  import opened Text
  import opened Grammar
  import opened Precedence
  import opened Semver
  import opened SemverLaws

  /** Text with neither '+' nor '-' is all core. */
  lemma CoreOnly(s: string)
    requires '+' !in s && '-' !in s
    ensures Match(s) == (
      var nums := Split(s, '.');
      if |nums| == 3 && IsDigits(nums[0]) && IsDigits(nums[1]) && IsDigits(nums[2])
      then Some(Groups(nums[0], nums[1], nums[2], None, None))
      else None)
  {
    PartitionTagged(s, '+', None);
    PartitionTagged(s, '-', None);
    assert s + Tagged('+', None) == s;
    assert s + Tagged('-', None) == s;
  }

  /** Absent input and the empty string fail. */
  lemma RejectsEmpty()
    ensures FromString(None).Err?
    ensures FromString(Some("")).Err?
  {
    CoreOnly("");
    assert IndexOf("", '.').None?;
    assert |Split("", '.')| == 1;
  }

  /** A core of two dot-separated groups without markers fails. */
  lemma TwoGroupsRejected(a: string, b: string)
    requires forall c :: c in "+-." ==> c !in a && c !in b
    ensures FromString(Some(a + "." + b)).Err?
  {
    var s := a + "." + b;
    assert '+' !in s && '-' !in s;
    CoreOnly(s);
    assert Join([a, b], '.') == s;
    SplitJoin([a, b], '.');
  }

  /** A missing segment fails. */
  lemma RejectsMissingSegment()
    ensures FromString(Some("1.2")).Err?
  {
    assert "1.2" == "1" + "." + "2";
    TwoGroupsRejected("1", "2");
  }

  /** A core of three dot-separated groups without markers fails when the first is not `_DIGITS`. */
  lemma FirstGroupRejected(a: string, b: string, c: string)
    requires forall x :: x in "+-." ==> x !in a && x !in b && x !in c
    requires !IsDigits(a)
    ensures FromString(Some(a + "." + b + "." + c)).Err?
  {
    var s := a + "." + b + "." + c;
    assert '+' !in s && '-' !in s;
    CoreOnly(s);
    JoinThree([a, b, c]);
    SplitJoin([a, b, c], '.');
  }

  /** A leading zero fails. */
  lemma RejectsLeadingZero()
    ensures FromString(Some("01.2.3")).Err?
  {
    assert "01.2.3" == "01" + "." + "2" + "." + "3";
    assert !IsDigits("01") by {
      assert "01"[0] == '0';
    }
    FirstGroupRejected("01", "2", "3");
  }

  /** The empty text is neither a pre-release nor a build. */
  lemma EmptyNotPrereleaseOrBuild()
    ensures !IsPrerelease("") && !IsBuild("")
  {
    assert IndexOf("", '.').None?;
    assert Split("", '.') == [""];
    assert !IsPrereleaseIdent(Split("", '.')[0]) && !IsAlphaNum(Split("", '.')[0]);
  }

  /** After any text without markers, a dangling '-' leaves an empty pre-release: it fails. */
  lemma DanglingDashRejected(c: string)
    requires '+' !in c && '-' !in c
    ensures FromString(Some(c + "-")).Err?
  {
    EmptyNotPrereleaseOrBuild();
    PartitionTagged(c, '-', Some(""));
    assert c + Tagged('-', Some("")) == c + "-";
    PartitionTagged(c + "-", '+', None);
    assert c + "-" + Tagged('+', None) == c + "-";
  }

  /** After any text without markers, a dangling '+' leaves an empty build: it fails. */
  lemma DanglingPlusRejected(c: string)
    requires '+' !in c && '-' !in c
    ensures FromString(Some(c + "+")).Err?
  {
    EmptyNotPrereleaseOrBuild();
    PartitionTagged(c, '+', Some(""));
    assert c + Tagged('+', Some("")) == c + "+";
  }

  /** A dangling '-' leaves an empty pre-release and a dangling '+' an empty build: both fail. */
  lemma RejectsDanglingMarkers()
    ensures FromString(Some("1.2.3-")).Err?
    ensures FromString(Some("1.2.3+")).Err?
  {
    assert "1.2.3-" == "1.2.3" + "-" && "1.2.3+" == "1.2.3" + "+";
    assert '+' !in "1.2.3" && '-' !in "1.2.3";
    DanglingDashRejected("1.2.3");
    DanglingPlusRejected("1.2.3");
  }

  /** Version 1.0.0 with the given pre-release. */
  function Pre(p: string): SemVer {
    SemVer(1, 0, 0, Some(p), None)
  }

  /** A pre-release of two identifiers converts to two identifiers. */
  lemma TwoIdentifiers(s: string, t: string)
    requires '.' !in s && '.' !in t
    ensures GetParts(s + "." + t) == [ToComparable(s), ToComparable(t)]
  {
    GetPartsConcat(s, t);
  }

  /** The numbers decide before anything else. */
  lemma CoreOrdering()
    ensures Less(SemVer(1, 2, 3, None, None), SemVer(1, 2, 4, None, None))
    ensures Greater(SemVer(2, 0, 0, None, None), SemVer(1, 9, 9, None, None))
  {
  }

  /** The identifiers of the chain, converted. */
  lemma ConvertedWords()
    ensures ToComparable("alpha") == Alpha("alpha")
    ensures ToComparable("beta") == Alpha("beta")
    ensures ToComparable("rc") == Alpha("rc")
  {
    assert !IsDigit("alpha"[0]) && !IsDigit("beta"[0]) && !IsDigit("rc"[0]);
    assert Lower("alpha") == "alpha" && Lower("beta") == "beta" && Lower("rc") == "rc";
  }

  /** The numbers of the chain, converted. */
  lemma ConvertedNumbers()
    ensures ToComparable("1") == Num(1)
    ensures ToComparable("2") == Num(2)
    ensures ToComparable("9") == Num(9)
    ensures ToComparable("10") == Num(10)
    ensures ToComparable("11") == Num(11)
  {
    assert "10"[..1] == "1" && "11"[..1] == "1";
    assert IsAllDigits("10") && IsAllDigits("11");
  }

  // The precedence chain of Semantic Versioning 2.0.0 item 11, one link at a time.

  lemma AlphaBelowAlpha1()
    ensures Less(Pre("alpha"), Pre("alpha.1"))
  {
    assert "alpha.1" == "alpha" + "." + "1";
    PrereleasePrefixLower(Pre("alpha"), Pre("alpha.1"), "alpha", "1");
  }

  /** Two-identifier pre-releases with a common first identifier: the second decides. */
  lemma SecondIdentifierDecides(p: string, x: string, y: string)
    requires '.' !in p && '.' !in x && '.' !in y && ToComparable(x) != ToComparable(y)
    ensures Compare(Pre(p + "." + x), Pre(p + "." + y)) == CmpIdent(ToComparable(x), ToComparable(y))
  {
    TwoIdentifiers(p, x);
    TwoIdentifiers(p, y);
    FirstDifferentIdentifierDecides(
      Pre(p + "." + x), Pre(p + "." + y), [ToComparable(p)], ToComparable(x), ToComparable(y), [], []);
  }

  lemma Alpha1BelowAlphaBeta()
    ensures Less(Pre("alpha.1"), Pre("alpha.beta"))
  {
    ConvertedWords();
    ConvertedNumbers();
    assert "alpha.1" == "alpha" + "." + "1";
    assert "alpha.beta" == "alpha" + "." + "beta";
    SecondIdentifierDecides("alpha", "1", "beta");
  }

  /** A two-identifier pre-release against a one-identifier one: the first identifiers decide when they differ. */
  lemma LeadingIdentifierDecides(x: string, u: string, y: string)
    requires '.' !in x && '.' !in u && '.' !in y && ToComparable(x) != ToComparable(y)
    ensures Compare(Pre(x + "." + u), Pre(y)) == CmpIdent(ToComparable(x), ToComparable(y))
  {
    TwoIdentifiers(x, u);
    FirstDifferentIdentifierDecides(
      Pre(x + "." + u), Pre(y), [], ToComparable(x), ToComparable(y), [ToComparable(u)], []);
  }

  /** Two two-identifier pre-releases: the first identifiers decide when they differ. */
  lemma LeadingIdentifiersDecide(x: string, u: string, y: string, v: string)
    requires '.' !in x && '.' !in u && '.' !in y && '.' !in v && ToComparable(x) != ToComparable(y)
    ensures Compare(Pre(x + "." + u), Pre(y + "." + v)) == CmpIdent(ToComparable(x), ToComparable(y))
  {
    TwoIdentifiers(x, u);
    TwoIdentifiers(y, v);
    FirstDifferentIdentifierDecides(
      Pre(x + "." + u), Pre(y + "." + v), [], ToComparable(x), ToComparable(y), [ToComparable(u)], [ToComparable(v)]);
  }

  lemma AlphaBetaBelowBeta()
    ensures Less(Pre("alpha.beta"), Pre("beta"))
  {
    ConvertedWords();
    assert "alpha.beta" == "alpha" + "." + "beta";
    LeadingIdentifierDecides("alpha", "beta", "beta");
  }

  lemma BetaBelowBeta2()
    ensures Less(Pre("beta"), Pre("beta.2"))
  {
    assert "beta.2" == "beta" + "." + "2";
    PrereleasePrefixLower(Pre("beta"), Pre("beta.2"), "beta", "2");
  }

  /** Numeric identifiers compare by value: beta.2 ranks below beta.11. */
  lemma Beta2BelowBeta11()
    ensures Less(Pre("beta.2"), Pre("beta.11"))
  {
    ConvertedNumbers();
    assert "beta.2" == "beta" + "." + "2";
    assert "beta.11" == "beta" + "." + "11";
    SecondIdentifierDecides("beta", "2", "11");
  }

  lemma Beta11BelowRc1()
    ensures Less(Pre("beta.11"), Pre("rc.1"))
  {
    ConvertedWords();
    assert "beta.11" == "beta" + "." + "11";
    assert "rc.1" == "rc" + "." + "1";
    LeadingIdentifiersDecide("beta", "11", "rc", "1");
  }

  lemma Rc1BelowRelease()
    ensures Less(Pre("rc.1"), SemVer(1, 0, 0, None, None))
  {
  }

  /** Numeric identifiers compare by value, not as text: alpha.10 ranks above alpha.9. */
  lemma NumericNotLexical()
    ensures Greater(Pre("alpha.10"), Pre("alpha.9"))
  {
    ConvertedNumbers();
    assert "alpha.10" == "alpha" + "." + "10";
    assert "alpha.9" == "alpha" + "." + "9";
    SecondIdentifierDecides("alpha", "9", "10");
  }

  /** Versions that differ only in build (as `ParsesBuild` gives them) have equal precedence but are not `==`. */
  lemma BuildOnlyDifference()
    ensures Compare(SemVer(1, 0, 0, None, Some("build1")), SemVer(1, 0, 0, None, Some("build2"))) == 0
    ensures !Equal(SemVer(1, 0, 0, None, Some("build1")), SemVer(1, 0, 0, None, Some("build2")))
  {
    assert "build1" != "build2" by {
      assert "build1"[5] != "build2"[5];
    }
  }

  /** Versions whose pre-releases differ only in case (as `ParsesPrerelease` gives them) have equal precedence but are not `==`. */
  lemma CaseOnlyDifference()
    ensures Compare(Pre("RC.1"), Pre("rc.1")) == 0
    ensures !Equal(Pre("RC.1"), Pre("rc.1"))
  {
    assert Lower("RC.1") == Lower("rc.1");
    PrereleaseCaseInsensitive(Pre("RC.1"), Pre("rc.1"));
    assert "RC.1"[0] != "rc.1"[0];
  }

  /** The numbers of version 1.0.0 as digit groups. */
  lemma OneZeroZeroGroups()
    ensures IsDigits("1") && IsDigits("0")
    ensures DigitsValue("1") == 1 && DigitsValue("0") == 0
  {
  }

  /** Parsing `1.0.0-p` keeps the pre-release `p` as written, letter case included. */
  lemma ParsesPrerelease(p: string)
    requires IsPrerelease(p)
    ensures FromString(Some("1.0.0-" + p)) == Ok(Pre(p))
  {
    var g := Groups("1", "0", "0", Some(p), None);
    OneZeroZeroGroups();
    assert Assemble(g) == "1.0.0-" + p;
    ParseFields("1.0.0-" + p, g);
  }

  /** Parsing `1.0.0+b` keeps the build `b` as written. */
  lemma ParsesBuild(b: string)
    requires IsBuild(b)
    ensures FromString(Some("1.0.0+" + b)) == Ok(SemVer(1, 0, 0, None, Some(b)))
  {
    var g := Groups("1", "0", "0", None, Some(b));
    OneZeroZeroGroups();
    assert Assemble(g) == "1.0.0+" + b;
    ParseFields("1.0.0+" + b, g);
  }

  /** A single pre-release identifier is a pre-release. */
  lemma OneIdentifierText(x: string)
    requires IsPrereleaseIdent(x)
    ensures IsPrerelease(x)
  {
    assert Join([x], '.') == x;
    PrereleaseGrammar([x]);
  }

  /** Two pre-release identifiers joined by a dot are a pre-release. */
  lemma TwoIdentifierText(x: string, y: string)
    requires IsPrereleaseIdent(x) && IsPrereleaseIdent(y)
    ensures IsPrerelease(x + "." + y)
  {
    assert Join([x, y], '.') == x + "." + y;
    PrereleaseGrammar([x, y]);
  }

  /** The words of the precedence chain are strict alphanumeric identifiers. */
  lemma ChainWords()
    ensures IsPrereleaseIdent("alpha") && IsPrereleaseIdent("beta") && IsPrereleaseIdent("rc")
  {
    assert IsAsciiLetter("alpha"[0]) && IsAsciiLetter("beta"[0]) && IsAsciiLetter("rc"[0]);
    assert IsAlphaNum("alpha") && IsAlphaNum("beta") && IsAlphaNum("rc");
  }

  /** The numbers of the precedence chain are numeric identifiers. */
  lemma ChainNumbers()
    ensures IsPrereleaseIdent("1") && IsPrereleaseIdent("2") && IsPrereleaseIdent("9")
    ensures IsPrereleaseIdent("10") && IsPrereleaseIdent("11")
  {
    assert IsDigits("1") && IsDigits("2") && IsDigits("9");
    assert "10"[0] == '1' && "11"[0] == '1';
    assert IsAllDigits("10") && IsAllDigits("11");
  }

  /** Every pre-release of the precedence chain is in the grammar, so `ParsesPrerelease` applies to each. */
  lemma ChainTextsValid()
    ensures IsPrerelease("alpha") && IsPrerelease("beta")
    ensures IsPrerelease("alpha.1") && IsPrerelease("alpha.beta") && IsPrerelease("beta.2")
    ensures IsPrerelease("beta.11") && IsPrerelease("rc.1")
    ensures IsPrerelease("alpha.9") && IsPrerelease("alpha.10")
  {
    ChainWords();
    ChainNumbers();
    OneIdentifierText("alpha");
    OneIdentifierText("beta");
    assert "alpha.1" == "alpha" + "." + "1" && "alpha.beta" == "alpha" + "." + "beta";
    assert "beta.2" == "beta" + "." + "2" && "beta.11" == "beta" + "." + "11";
    assert "rc.1" == "rc" + "." + "1";
    assert "alpha.9" == "alpha" + "." + "9" && "alpha.10" == "alpha" + "." + "10";
    TwoIdentifierText("alpha", "1");
    TwoIdentifierText("alpha", "beta");
    TwoIdentifierText("beta", "2");
    TwoIdentifierText("beta", "11");
    TwoIdentifierText("rc", "1");
    TwoIdentifierText("alpha", "9");
    TwoIdentifierText("alpha", "10");
  }

  /** One link of the chain stated on the version strings themselves: `1.0.0-beta.2 < 1.0.0-beta.11`. */
  lemma ParsedBeta2BelowBeta11()
    ensures FromString(Some("1.0.0-beta.2")).Ok? && FromString(Some("1.0.0-beta.11")).Ok?
    ensures Less(FromString(Some("1.0.0-beta.2")).value, FromString(Some("1.0.0-beta.11")).value)
  {
    ChainTextsValid();
    assert "1.0.0-beta.2" == "1.0.0-" + "beta.2";
    assert "1.0.0-beta.11" == "1.0.0-" + "beta.11";
    ParsesPrerelease("beta.2");
    ParsesPrerelease("beta.11");
    Beta2BelowBeta11();
  }

  /** The pre-releases of the case example are in the grammar. */
  lemma CaseExampleTextsValid()
    ensures IsPrerelease("RC.1") && IsPrerelease("rc.1")
  {
    assert "RC.1" == "RC" + "." + "1" && "rc.1" == "rc" + "." + "1";
    assert IsAsciiLetter("RC"[0]) && IsAsciiLetter("rc"[0]);
    assert IsAlphaNum("RC") && IsAlphaNum("rc");
    ChainNumbers();
    TwoIdentifierText("RC", "1");
    TwoIdentifierText("rc", "1");
  }

  /** The builds of the build example are in the grammar. */
  lemma BuildExampleTextsValid()
    ensures IsBuild("build1") && IsBuild("build2")
  {
    assert IsAlphaNum("build1") && IsAlphaNum("build2");
    assert Join(["build1"], '.') == "build1" && Join(["build2"], '.') == "build2";
    BuildGrammar(["build1"]);
    BuildGrammar(["build2"]);
  }

}
