# Semantic versions: parsing, precedence and equality

A Dafny model of the semantic-version helper of the Google Cloud SDK
(`lib/googlecloudsdk/core/util/semver.py`). A version string
`major.minor.patch[-prerelease][+build]` is checked against a strict grammar
(Semantic Versioning 2.0.0 items 2, 9 and 10) and broken into five fields. The
three numbers become integers. The pre-release and the build stay raw text.
Two versions can then be compared in two separate ways:

- **precedence** (`_Compare`, -1/0/1, behind `<`, `>`, `<=`, `>=`) looks at the
  numbers, then the pre-release, and never at the build. Pre-release
  identifiers are split on `.`. All-digit ones compare as integers, others as
  lower-cased strings, and an integer is below any string (Python 2's mixed
  `cmp`).
- **equality** (`==`, `!=`) requires all five fields to be identical, build and
  letter case included.

So equal precedence does not imply equality. The model keeps the two
relations apart and proves both halves of that asymmetry.

Files, one module each:

- `wrappers.dfy`: `Option` (Python's `None`) and `Result` (a raised error).
- `text.dfy`: the Python 2 string operations the code uses: `isdigit()`,
  `int()`, `lower()` and `split('.')`. It also holds `IndexOf` and
  `Partition`, which are not in the source: the recognizer uses them to find
  where the regular expression puts its group boundaries. And it holds `Show`,
  the decimal rendering that inverts `int()` on canonical digits.
- `grammar.dfy`: the regular-expression building blocks `_DIGITS`,
  `_ALPHA_NUM`, `_STRICT_ALPHA_NUM`, `_PRE_RELEASE`, `_BUILD` as predicates
  (`IsDigits`, `IsAlphaNum`, `IsStrictAlphaNum`, `IsPrerelease`, `IsBuild`).
  `Match` recognizes `_SEMVER` and `Derives` is the grammar read as a
  concatenation.
- `precedence.dfy`: the converted identifier `Ident = Num | Alpha` and Python
  2's `cmp` on strings, identifiers and identifier lists, with their laws.
- `semver.dfy`: the `SemVer` value, `FromString`, `_ComparePrereleaseStrings`,
  `_Compare`, and the six operators.
- `semver_laws.dfy`: properties over all inputs: parse iff grammar, round
  trip, total preorder, the precedence rules, build-insensitivity.
- `scenarios.dfy`: concrete rejected strings, the precedence chain of item 11,
  and the build and case asymmetries.

The code and the Semantic Versioning standard differ in one place: the code
lower-cases alphanumeric identifiers before comparing them (line 115), so
`RC.1` and `rc.1` have equal precedence. The standard compares them in ASCII
order. The model follows the code. Pre-release and build stay raw strings:
the pre-release is split on `.` only when compared (lines 115-117), and the
build is never split.

## Model

| member | source | states |
|---|---|---|
| `Text.Split` | lib/googlecloudsdk/core/util/semver.py:117 | `s.split('.')` gives at least one piece and no piece contains the separator |
| `Text.IsAllDigits` | lib/googlecloudsdk/core/util/semver.py:115 | `str.isdigit()`: non-empty and all decimal digits; its laws are `Text.LowerKeepsDigits` (unchanged by `lower()`), the first ensures of `Precedence.ToComparable` (a number exactly for such text) and `Grammar.StrictAlphaNumNotAllDigits` (strict alphanumerics are never all digits) |
| `Text.DigitsValue` | lib/googlecloudsdk/core/util/semver.py:90 | `int()` of a digit string (leading zeros accepted); an `n`-digit string is below 10^n |
| `Text.LeadingDigitBound` | lib/googlecloudsdk/core/util/semver.py:90 | an `n`-digit string without a leading zero is at least 10^(n-1) |
| `Text.DigitsValueFront` | lib/googlecloudsdk/core/util/semver.py:90 | `int()` read from the front: the first digit weighs 10^(n-1), the rest is `int()` of the tail |
| `Text.Lower` | lib/googlecloudsdk/core/util/semver.py:115 | `str.lower()` on ASCII; its laws are `Text.LowerCharacters`, `Text.LowerKeepsDigits` (does not change `isdigit()`) and `Text.LowerIdempotent` |
| `Text.LowerCharacters` | lib/googlecloudsdk/core/util/semver.py:115 | `lower()` keeps the length, leaves no upper-case letter, keeps every non-letter and maps a letter to itself or its lower-case form |
| `Text.LowerKeepsDigits` | lib/googlecloudsdk/core/util/semver.py:115 | `lower()` does not change `isdigit()` and leaves all-digit text unchanged |
| `Text.LowerIdempotent` | lib/googlecloudsdk/core/util/semver.py:115 | lower-casing twice is lower-casing once |
| `Text.ShowOfValue` | lib/googlecloudsdk/core/util/semver.py:90 | `int()` of a digit group without a leading zero loses nothing: rendering the value gives the group back |
| `Text.ShowCanonical` | lib/googlecloudsdk/core/util/semver.py:31-32 | the decimal rendering of a number is a digit group with no leading zero that `int()` reads back as that number |
| `Grammar.IsDigits` | lib/googlecloudsdk/core/util/semver.py:31-32 | `_DIGITS`: `0`, or a non-zero digit followed by digits; `Text.ShowOfValue` and `Text.ShowCanonical` show these are exactly the decimal renderings of numbers |
| `Grammar.IsAlphaNum` | lib/googlecloudsdk/core/util/semver.py:33-34 | `_ALPHA_NUM`: one or more digits, ASCII letters or dashes; `Grammar.BuildGrammar` builds on it |
| `Grammar.IsStrictAlphaNum` | lib/googlecloudsdk/core/util/semver.py:35-37 | `_STRICT_ALPHA_NUM`: alphanumeric with at least one letter or dash; `Grammar.StrictAlphaNumNotAllDigits` characterizes it |
| `Grammar.IsPrereleaseIdent` | lib/googlecloudsdk/core/util/semver.py:39 | `_PRE_RELEASE_IDENTIFIER`: numeric or strict alphanumeric; `Precedence.IdentEquivalence` and `Precedence.NumericIdentOrder` say how two of them compare |
| `Grammar.IsPrerelease` | lib/googlecloudsdk/core/util/semver.py:40 | `_PRE_RELEASE`: every dot-separated piece is an identifier; `Grammar.PrereleaseGrammar` with `Text.JoinSplit` shows this is `id(\.id)*` |
| `Grammar.IsBuild` | lib/googlecloudsdk/core/util/semver.py:41 | `_BUILD`: every dot-separated piece is alphanumeric; `Grammar.BuildGrammar` with `Text.JoinSplit` shows this is `id(\.id)*` |
| `Grammar.StrictAlphaNumNotAllDigits` | lib/googlecloudsdk/core/util/semver.py:35-37 | "alphanumerics with at least one letter or dash" is the same as "alphanumeric and not all digits" |
| `Grammar.PrereleaseGrammar` | lib/googlecloudsdk/core/util/semver.py:39-40 | any one or more pre-release identifiers joined by dots form a valid pre-release, and splitting it returns those identifiers |
| `Grammar.BuildGrammar` | lib/googlecloudsdk/core/util/semver.py:41 | any one or more alphanumeric identifiers joined by dots form a valid build, and splitting returns them |
| `Grammar.Derives` | lib/googlecloudsdk/core/util/semver.py:43-46 | reference reading of `_SEMVER` as a concatenation: `major.minor.patch`, then optionally `-` and a pre-release, then optionally `+` and a build, each group well formed; `Grammar.Match` is proved sound and complete against it |
| `Grammar.InLanguage` | lib/googlecloudsdk/core/util/semver.py:43-46 | the language of `_SEMVER`: some groups derive the text; `Grammar.MatchIffInLanguage` and `SemverLaws.ParseOkIffInLanguage` are stated against it |
| `Grammar.Match` | lib/googlecloudsdk/core/util/semver.py:43-46 | whenever the recognizer matches, the text is exactly `major.minor.patch[-pre][+build]` built from the returned groups, each group well formed (soundness) |
| `Grammar.MatchComplete` | lib/googlecloudsdk/core/util/semver.py:43-46 | any text the grammar derives is matched, and the groups returned are exactly those of the derivation (completeness, unique groups) |
| `Grammar.MatchIffInLanguage` | lib/googlecloudsdk/core/util/semver.py:43-46 | the recognizer succeeds exactly on the language of the grammar |
| `Semver.FromString` | lib/googlecloudsdk/core/util/semver.py:73-91 | absent input raises `ParseError(None)`; every failure carries the input; a success comes only from a match |
| `SemverLaws.ParseOkIffInLanguage` | lib/googlecloudsdk/core/util/semver.py:75-86 | parsing fails exactly when the input is absent or outside the grammar; otherwise it yields a whole version, never a partial one |
| `SemverLaws.ParseFields` | lib/googlecloudsdk/core/util/semver.py:88-91 | for text the grammar derives, the numbers are `int()` of the digit groups and pre-release and build are the raw groups, `None` when absent |
| `SemverLaws.RenderParse` | lib/googlecloudsdk/core/util/semver.py:5-20 | every version with a valid pre-release and build is what parsing its `major.minor.patch[-pre][+build]` rendering yields |
| `SemverLaws.ParseRender` | lib/googlecloudsdk/core/util/semver.py:88-91 | a parsed version is well formed and renders back to the very string it was parsed from |
| `SemverLaws.EqualIffSameString` | lib/googlecloudsdk/core/util/semver.py:22-23 | two parsed versions are `==` exactly when they were parsed from the same string, build and case included |
| `Precedence.ToComparable` | lib/googlecloudsdk/core/util/semver.py:115 | `to_comparable`: a number exactly for all-digit text, otherwise text that is already lower case and not all digits; compared as in `Precedence.IdentRules`, `Precedence.IdentEquivalence`, `Precedence.NumericIdentOrder` |
| `Precedence.GetParts` | lib/googlecloudsdk/core/util/semver.py:117 | `get_parts`: never empty, and text without dots is one identifier; `Precedence.GetPartsConcat` gives the general case |
| `Precedence.CmpInt` | lib/googlecloudsdk/core/util/semver.py:119 | `cmp` on integers: -1, 0 or 1, zero exactly on equal values, negative exactly when the first is smaller |
| `Precedence.CmpString` | lib/googlecloudsdk/core/util/semver.py:119 | Python 2 `cmp` on strings returns -1, 0 or 1 |
| `Precedence.CmpIdent` | lib/googlecloudsdk/core/util/semver.py:115-119 | `cmp` on converted identifiers returns -1, 0 or 1 |
| `Precedence.CmpList` | lib/googlecloudsdk/core/util/semver.py:119 | `cmp` on identifier lists returns -1, 0 or 1 |
| `Precedence.CmpStringZero` | lib/googlecloudsdk/core/util/semver.py:119 | string `cmp` is 0 exactly on equal strings |
| `Precedence.CmpStringAntisymmetric` | lib/googlecloudsdk/core/util/semver.py:119 | string `cmp` changes sign when the operands are swapped |
| `Precedence.CmpStringTransitive` | lib/googlecloudsdk/core/util/semver.py:119 | string `cmp` is transitive |
| `Precedence.CmpIdentZero` | lib/googlecloudsdk/core/util/semver.py:115-119 | identifier `cmp` is 0 exactly on equal converted identifiers |
| `Precedence.CmpIdentAntisymmetric` | lib/googlecloudsdk/core/util/semver.py:115-119 | identifier `cmp` changes sign when the operands are swapped |
| `Precedence.CmpIdentTransitive` | lib/googlecloudsdk/core/util/semver.py:115-119 | identifier `cmp` is transitive |
| `Precedence.CmpListZero` | lib/googlecloudsdk/core/util/semver.py:119 | list `cmp` is 0 exactly on equal lists |
| `Precedence.CmpListAntisymmetric` | lib/googlecloudsdk/core/util/semver.py:119 | list `cmp` changes sign when the operands are swapped |
| `Precedence.CmpListTransitive` | lib/googlecloudsdk/core/util/semver.py:119 | list `cmp` is transitive |
| `Precedence.CmpListPrefix` | lib/googlecloudsdk/core/util/semver.py:119 | a proper prefix of an identifier list is lower |
| `Precedence.CmpListFirstDifference` | lib/googlecloudsdk/core/util/semver.py:119 | after a common prefix, the first differing pair of identifiers decides, whatever follows |
| `Precedence.IdentRules` | lib/googlecloudsdk/core/util/semver.py:115 | two all-digit identifiers compare by integer value, an all-digit one is below any other, two others compare as lower-cased strings |
| `Precedence.SameLengthDigitsOrder` | lib/googlecloudsdk/core/util/semver.py:114-119 | for digit strings of equal length, comparing their `int()` values is comparing the text |
| `Precedence.NumericIdentOrder` | lib/googlecloudsdk/core/util/semver.py:114-119 | two numeric identifiers without leading zeros: the shorter is lower, and equal lengths compare as text |
| `Precedence.ToComparableLower` | lib/googlecloudsdk/core/util/semver.py:115 | converting an identifier ignores letter case |
| `Precedence.IdentEquivalence` | lib/googlecloudsdk/core/util/semver.py:114-115 | two valid pre-release identifiers have equal precedence exactly when they agree up to letter case |
| `Precedence.GetPartsLower` | lib/googlecloudsdk/core/util/semver.py:115-117 | splitting a pre-release and converting its identifiers ignores letter case |
| `Precedence.GetPartsConcat` | lib/googlecloudsdk/core/util/semver.py:117 | the identifiers of `s.t` are those of `s` followed by those of `t` |
| `Semver.ComparePrereleaseStrings` | lib/googlecloudsdk/core/util/semver.py:94-119 | result is -1, 0 or 1; no pre-release ranks above a pre-release; identical pre-releases, both absent included, compare 0 |
| `Semver.ComparePrereleaseByIdentifiers` | lib/googlecloudsdk/core/util/semver.py:110-119 | two present pre-releases compare exactly as their converted identifier lists; the identical-string shortcut agrees with that |
| `Semver.CompareCore` | lib/googlecloudsdk/core/util/semver.py:131-133 | the triple comparison is -1, 0 or 1, and 0 exactly when the three numbers agree |
| `Semver.Compare` | lib/googlecloudsdk/core/util/semver.py:121-138 | result is -1, 0 or 1; 0 only when the three numbers agree; a version compares 0 with itself |
| `Semver.CompareAntisymmetric` | lib/googlecloudsdk/core/util/semver.py:121-138 | `_Compare(a, b) == -_Compare(b, a)` |
| `Semver.Equal` | lib/googlecloudsdk/core/util/semver.py:140-143 | `==` holds exactly when the two values are identical in all five fields |
| `Semver.NotEqual` | lib/googlecloudsdk/core/util/semver.py:145-146 | `!=` holds exactly when some field differs |
| `Semver.Less` | lib/googlecloudsdk/core/util/semver.py:151-152 | `<` holds exactly when `_Compare` is -1, and never between identical values |
| `Semver.Greater` | lib/googlecloudsdk/core/util/semver.py:148-149 | `a > b` holds exactly when `b < a` |
| `Semver.LessOrEqual` | lib/googlecloudsdk/core/util/semver.py:157-158 | `<=` is `<` or equal precedence |
| `Semver.GreaterOrEqual` | lib/googlecloudsdk/core/util/semver.py:154-155 | `a >= b` is `b <= a`, that is `>` or equal precedence |
| `SemverLaws.CompareTransitive` | lib/googlecloudsdk/core/util/semver.py:121-138 | "lower or equal precedence" is transitive |
| `SemverLaws.LessThenAtMost` | lib/googlecloudsdk/core/util/semver.py:121-138 | strictly lower, then lower or equal, is strictly lower |
| `SemverLaws.LessTransitive` | lib/googlecloudsdk/core/util/semver.py:151-152 | `<` is transitive |
| `SemverLaws.SamePrecedenceEquivalence` | lib/googlecloudsdk/core/util/semver.py:121-138 | equal precedence is reflexive, symmetric and transitive |
| `SemverLaws.Trichotomy` | lib/googlecloudsdk/core/util/semver.py:148-152 | exactly one of `<`, equal precedence, `>` holds |
| `SemverLaws.CoreDecides` | lib/googlecloudsdk/core/util/semver.py:131-137 | when the numbers differ, the result is their lexicographic order whatever the pre-releases and builds |
| `SemverLaws.ReleaseAbovePrerelease` | lib/googlecloudsdk/core/util/semver.py:104-112 | with equal numbers a release ranks above any pre-release, and equal pre-releases (both absent included) compare 0 |
| `SemverLaws.PrereleaseByIdentifiers` | lib/googlecloudsdk/core/util/semver.py:134-137 | with equal numbers and two pre-releases, the result is the comparison of the converted identifier lists |
| `SemverLaws.FirstDifferentIdentifierDecides` | lib/googlecloudsdk/core/util/semver.py:114-119 | with equal numbers, the first differing pre-release identifier decides |
| `SemverLaws.PrereleasePrefixLower` | lib/googlecloudsdk/core/util/semver.py:116-119 | with equal numbers, a pre-release extended by more identifiers ranks higher |
| `SemverLaws.PrereleaseCaseInsensitive` | lib/googlecloudsdk/core/util/semver.py:22-25 | with equal numbers, pre-releases that agree up to letter case have equal precedence |
| `SemverLaws.BuildIgnored` | lib/googlecloudsdk/core/util/semver.py:134-138 | replacing either build by anything leaves the comparison unchanged |
| `SemverLaws.DerivedOperators` | lib/googlecloudsdk/core/util/semver.py:145-158 | `>=` is `not <`, `<=` is `not >`, `!=` is `not ==`, and `==` implies equal precedence |
| `Scenarios.RejectsEmpty` | lib/googlecloudsdk/core/util/semver.py:75-76 | absent input and `""` fail |
| `Scenarios.TwoGroupsRejected` | lib/googlecloudsdk/core/util/semver.py:84-86 | any text of two dot-separated groups without `+` or `-` fails |
| `Scenarios.RejectsMissingSegment` | lib/googlecloudsdk/core/util/semver.py:84-86 | `"1.2"` fails |
| `Scenarios.FirstGroupRejected` | lib/googlecloudsdk/core/util/semver.py:43-46 | three dot-separated groups without `+` or `-` fail when the first is not `_DIGITS` |
| `Scenarios.RejectsLeadingZero` | lib/googlecloudsdk/core/util/semver.py:31-32 | `"01.2.3"` fails |
| `Scenarios.DanglingDashRejected` | lib/googlecloudsdk/core/util/semver.py:43-46 | any text without markers followed by a lone `-` fails: the pre-release group cannot be empty |
| `Scenarios.DanglingPlusRejected` | lib/googlecloudsdk/core/util/semver.py:43-46 | any text without markers followed by a lone `+` fails: the build group cannot be empty |
| `Scenarios.RejectsDanglingMarkers` | lib/googlecloudsdk/core/util/semver.py:43-46 | `"1.2.3-"` and `"1.2.3+"` fail |
| `Scenarios.ParsesPrerelease` | lib/googlecloudsdk/core/util/semver.py:88-91 | `"1.0.0-" + p` parses, for any valid pre-release `p`, to 1.0.0 with pre-release `p` kept as written, letter case included |
| `Scenarios.ParsesBuild` | lib/googlecloudsdk/core/util/semver.py:88-91 | `"1.0.0+" + b` parses, for any valid build `b`, to 1.0.0 with build `b` kept as written |
| `Scenarios.CaseExampleTextsValid` | lib/googlecloudsdk/core/util/semver.py:39-40 | `RC.1` and `rc.1` are valid pre-releases, so `Scenarios.ParsesPrerelease` applies to them |
| `Scenarios.BuildExampleTextsValid` | lib/googlecloudsdk/core/util/semver.py:41 | `build1` and `build2` are valid builds, so `Scenarios.ParsesBuild` applies to them |
| `Scenarios.OneIdentifierText` | lib/googlecloudsdk/core/util/semver.py:40 | a single pre-release identifier is a pre-release |
| `Scenarios.TwoIdentifierText` | lib/googlecloudsdk/core/util/semver.py:40 | two pre-release identifiers joined by a dot are a pre-release |
| `Scenarios.ChainTextsValid` | lib/googlecloudsdk/core/util/semver.py:39-40 | every pre-release of the precedence chain (`alpha` … `rc.1`, `alpha.9`, `alpha.10`) is in the grammar, so `Scenarios.ParsesPrerelease` ties each value to its string |
| `Scenarios.ParsedBeta2BelowBeta11` | lib/googlecloudsdk/core/util/semver.py:88-91 | `"1.0.0-beta.2"` and `"1.0.0-beta.11"` both parse, and the first is `<` the second |
| `Scenarios.CoreOrdering` | lib/googlecloudsdk/core/util/semver.py:131-133 | `1.2.3 < 1.2.4` and `2.0.0 > 1.9.9` |
| `Scenarios.AlphaBelowAlpha1` | lib/googlecloudsdk/core/util/semver.py:117-119 | `1.0.0-alpha < 1.0.0-alpha.1` |
| `Scenarios.Alpha1BelowAlphaBeta` | lib/googlecloudsdk/core/util/semver.py:115-119 | `1.0.0-alpha.1 < 1.0.0-alpha.beta` |
| `Scenarios.AlphaBetaBelowBeta` | lib/googlecloudsdk/core/util/semver.py:115-119 | `1.0.0-alpha.beta < 1.0.0-beta` |
| `Scenarios.BetaBelowBeta2` | lib/googlecloudsdk/core/util/semver.py:117-119 | `1.0.0-beta < 1.0.0-beta.2` |
| `Scenarios.Beta2BelowBeta11` | lib/googlecloudsdk/core/util/semver.py:114-115 | `1.0.0-beta.2 < 1.0.0-beta.11` |
| `Scenarios.Beta11BelowRc1` | lib/googlecloudsdk/core/util/semver.py:115-119 | `1.0.0-beta.11 < 1.0.0-rc.1` |
| `Scenarios.Rc1BelowRelease` | lib/googlecloudsdk/core/util/semver.py:104-106 | `1.0.0-rc.1 < 1.0.0` |
| `Scenarios.NumericNotLexical` | lib/googlecloudsdk/core/util/semver.py:114-115 | `1.0.0-alpha.10 > 1.0.0-alpha.9` |
| `Scenarios.BuildOnlyDifference` | lib/googlecloudsdk/core/util/semver.py:22-25 | `1.0.0+build1` and `1.0.0+build2` have equal precedence but are not `==` |
| `Scenarios.CaseOnlyDifference` | lib/googlecloudsdk/core/util/semver.py:22-25 | `1.0.0-RC.1` and `1.0.0-rc.1` have equal precedence but are not `==` |

`SemverLaws.Render` (writing a version out), `Text.Show` (decimal rendering),
`Grammar.Derives` and `Grammar.InLanguage` (the `_SEMVER` grammar read as a
concatenation) are not in the source. They are reference definitions.
`Render` and `Show` state the round trip and "equal iff the same string";
`Derives` and `InLanguage` are what the recognizer `Match` is proved against.

## Left out

- The `re` engine is not modelled. The grammar is a direct recognizer, proved
  equal to the grammar read as a concatenation.
- Python's `$` after `re.match` also accepts one trailing newline (`"1.2.3\n"`
  parses, with patch `3`). The model treats `_SEMVER` as strictly anchored and
  rejects such input. `SemverLaws.ParseRender` and
  `SemverLaws.EqualIffSameString` depend on this strict anchoring. In the
  source, `"1.2.3"` and `"1.2.3\n"` parse to `==` versions, so the docstring's
  "equal iff the exact same string" (lines 22-23) does not hold for that pair.
- The `TypeError`/`re.error` path for a non-string argument (lines 80-82) is
  not modelled. The input is typed as an optional string.
- Exception message texts are left out. `ParseError` carries only the
  offending input (or `None`).
- `__eq__` with a non-`SemVer` operand raises `AttributeError`. That is not
  modelled: both operands are versions.
- `isdigit()` and `lower()` are modelled on ASCII only, which is all the
  grammar lets through. Locale-dependent behaviour of Python 2 byte strings
  is left out.
- `__init__` only unpacks `_FromString`'s tuple into five attributes. It is
  modelled by `FromString` returning the value. The object identity of a
  `SemVer` instance is not modelled, since no field is updated after
  construction.
- The other files of the repository are not part of this model: the SQL,
  compute, genomics and test command wrappers, the App Engine RPC test
  utilities and the bootstrap setup. They hold command-line glue, remote API
  calls and test scaffolding, not version logic.
