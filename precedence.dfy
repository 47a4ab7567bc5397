/**
 * Pre-release identifiers made comparable, and Python 2's three-way `cmp`
 * on the values the version code compares: integers, strings, identifiers
 * and lists of identifiers. Every `cmp` returns -1, 0 or 1, is zero exactly on
 * equal values, is antisymmetric and transitive.
 */
module Precedence {
  import opened Text
  import opened Grammar

  /**
   * A pre-release identifier after conversion: an all-digit one becomes its
   * integer value, any other one its lower-cased text. Python 2 orders every
   * integer below every string, so `Num` sorts before `Alpha`.
   */
  datatype Ident = Num(n: nat) | Alpha(s: string)

  /**
   * `int(part) if part.isdigit() else part.lower()`: a number exactly for
   * all-digit text; otherwise text that is already lower case and not all
   * digits.
   */
  function ToComparable(part: string): (r: Ident)
    ensures r.Num? <==> IsAllDigits(part)
    ensures r.Alpha? ==> Lower(r.s) == r.s && !IsAllDigits(r.s)
  {
    LowerIdempotent(part);
    LowerKeepsDigits(part);
    if IsAllDigits(part) then Num(DigitsValue(part)) else Alpha(Lower(part))
  }

  /**
   * `[to_comparable(part) for part in s.split('.')]`: never empty, and a text
   * without dots is a single identifier.
   */
  function GetParts(s: string): (r: seq<Ident>)
    ensures |r| >= 1
    ensures '.' !in s ==> r == [ToComparable(s)]
  {
    var parts := Split(s, '.');
    assert '.' !in s ==> IndexOf(s, '.').None?;
    seq(|parts|, k requires 0 <= k < |parts| => ToComparable(parts[k]))
  }

  /** `cmp` on integers: the sign of the difference. */
  function CmpInt(x: int, y: int): (r: int)
    ensures -1 <= r <= 1
    ensures r == 0 <==> x == y
    ensures r < 0 <==> x < y
  {
    if x < y then -1 else if x > y then 1 else 0
  }

  /** `cmp` on strings: character codes compared left to right, a proper prefix first. */
  function CmpString(a: string, b: string): (r: int)
    ensures -1 <= r <= 1
    decreases |a|
  {
    if a == [] && b == [] then 0
    else if a == [] then -1
    else if b == [] then 1
    else if a[0] < b[0] then -1
    else if a[0] > b[0] then 1
    else CmpString(a[1..], b[1..])
  }

  /** `cmp` on converted identifiers: numbers numerically, text as strings, any number below any text. */
  function CmpIdent(x: Ident, y: Ident): (r: int)
    ensures -1 <= r <= 1
  {
    match (x, y)
    case (Num(m), Num(n)) => CmpInt(m, n)
    case (Num(_), Alpha(_)) => -1
    case (Alpha(_), Num(_)) => 1
    case (Alpha(s), Alpha(t)) => CmpString(s, t)
  }

  /** `cmp` on lists: the first position that differs decides, and a proper prefix comes first. */
  function CmpList(a: seq<Ident>, b: seq<Ident>): (r: int)
    ensures -1 <= r <= 1
    decreases |a|
  {
    if a == [] && b == [] then 0
    else if a == [] then -1
    else if b == [] then 1
    else
      var c := CmpIdent(a[0], b[0]);
      if c != 0 then c else CmpList(a[1..], b[1..])
  }

  // Laws of `cmp` on strings

  lemma {:induction false} CmpStringZero(a: string, b: string)
    ensures CmpString(a, b) == 0 <==> a == b
    decreases |a|
  {
    if a != [] && b != [] && a[0] == b[0] {
      CmpStringZero(a[1..], b[1..]);
      assert a == [a[0]] + a[1..] && b == [b[0]] + b[1..];
    }
  }

  lemma {:induction false} CmpStringAntisymmetric(a: string, b: string)
    ensures CmpString(a, b) == -CmpString(b, a)
    decreases |a|
  {
    if a != [] && b != [] && a[0] == b[0] {
      CmpStringAntisymmetric(a[1..], b[1..]);
    }
  }

  lemma {:induction false} CmpStringTransitive(a: string, b: string, c: string)
    requires CmpString(a, b) <= 0 && CmpString(b, c) <= 0
    ensures CmpString(a, c) <= 0
    decreases |a|
  {
    if a != [] && b != [] && c != [] && a[0] == b[0] && b[0] == c[0] {
      CmpStringTransitive(a[1..], b[1..], c[1..]);
    }
  }

  // Laws of `cmp` on identifiers

  lemma CmpIdentZero(x: Ident, y: Ident)
    ensures CmpIdent(x, y) == 0 <==> x == y
  {
    if x.Alpha? && y.Alpha? {
      CmpStringZero(x.s, y.s);
    }
  }

  lemma CmpIdentAntisymmetric(x: Ident, y: Ident)
    ensures CmpIdent(x, y) == -CmpIdent(y, x)
  {
    if x.Alpha? && y.Alpha? {
      CmpStringAntisymmetric(x.s, y.s);
    }
  }

  lemma CmpIdentTransitive(x: Ident, y: Ident, z: Ident)
    requires CmpIdent(x, y) <= 0 && CmpIdent(y, z) <= 0
    ensures CmpIdent(x, z) <= 0
  {
    if x.Alpha? && y.Alpha? && z.Alpha? {
      CmpStringTransitive(x.s, y.s, z.s);
    }
  }

  // Laws of `cmp` on identifier lists

  lemma {:induction false} CmpListZero(a: seq<Ident>, b: seq<Ident>)
    ensures CmpList(a, b) == 0 <==> a == b
    decreases |a|
  {
    if a != [] && b != [] {
      CmpIdentZero(a[0], b[0]);
      CmpListZero(a[1..], b[1..]);
      assert a == [a[0]] + a[1..] && b == [b[0]] + b[1..];
    }
  }

  lemma {:induction false} CmpListAntisymmetric(a: seq<Ident>, b: seq<Ident>)
    ensures CmpList(a, b) == -CmpList(b, a)
    decreases |a|
  {
    if a != [] && b != [] {
      CmpIdentAntisymmetric(a[0], b[0]);
      CmpListAntisymmetric(a[1..], b[1..]);
    }
  }

  lemma {:induction false} CmpListTransitive(a: seq<Ident>, b: seq<Ident>, c: seq<Ident>)
    requires CmpList(a, b) <= 0 && CmpList(b, c) <= 0
    ensures CmpList(a, c) <= 0
    decreases |a|
  {
    if a != [] && b != [] && c != [] {
      CmpIdentZero(a[0], b[0]);
      CmpIdentZero(b[0], c[0]);
      CmpIdentZero(a[0], c[0]);
      CmpIdentAntisymmetric(a[0], b[0]);
      if CmpIdent(a[0], b[0]) < 0 && CmpIdent(b[0], c[0]) < 0 {
        CmpIdentTransitive(a[0], b[0], c[0]);
      }
      if a[0] == b[0] && b[0] == c[0] {
        CmpListTransitive(a[1..], b[1..], c[1..]);
      }
    }
  }

  /** A proper prefix has lower precedence. */
  lemma {:induction false} CmpListPrefix(p: seq<Ident>, q: seq<Ident>)
    requires |p| < |q| && p == q[..|p|]
    ensures CmpList(p, q) == -1
    decreases |p|
  {
    if p != [] {
      CmpIdentZero(p[0], q[0]);
      assert p[1..] == q[1..][..|p| - 1];
      CmpListPrefix(p[1..], q[1..]);
    }
  }

  /** After a common prefix, the first pair of identifiers that differ decides, whatever follows. */
  lemma {:induction false} CmpListFirstDifference(p: seq<Ident>, x: Ident, y: Ident, u: seq<Ident>, v: seq<Ident>)
    requires x != y
    ensures CmpList(p + [x] + u, p + [y] + v) == CmpIdent(x, y)
    decreases |p|
  {
    CmpIdentZero(x, y);
    if p != [] {
      CmpIdentZero(p[0], p[0]);
      assert (p + [x] + u)[1..] == p[1..] + [x] + u;
      assert (p + [y] + v)[1..] == p[1..] + [y] + v;
      CmpListFirstDifference(p[1..], x, y, u, v);
    } else {
      assert (p + [x] + u)[1..] == u;
    }
  }

  // How two raw pre-release identifiers compare

  /**
   * The conversion's three cases: two all-digit identifiers compare by value,
   * an all-digit one is below any other, and two others compare as lower-cased
   * strings.
   */
  lemma IdentRules(a: string, b: string)
    ensures IsAllDigits(a) && IsAllDigits(b) ==>
      CmpIdent(ToComparable(a), ToComparable(b)) == CmpInt(DigitsValue(a), DigitsValue(b))
    ensures IsAllDigits(a) && !IsAllDigits(b) ==> CmpIdent(ToComparable(a), ToComparable(b)) == -1
    ensures !IsAllDigits(a) && !IsAllDigits(b) ==>
      CmpIdent(ToComparable(a), ToComparable(b)) == CmpString(Lower(a), Lower(b))
  {
  }

  /** Digit strings of the same length: numeric order is the order of the text. */
  lemma {:induction false} SameLengthDigitsOrder(a: string, b: string)
    requires IsAllDigits(a) && IsAllDigits(b) && |a| == |b|
    ensures CmpInt(DigitsValue(a), DigitsValue(b)) == CmpString(a, b)
    decreases |a|
  {
    DigitsValueFront(a);
    DigitsValueFront(b);
    var p := Pow10(|a| - 1);
    var da, db := DigitValue(a[0]), DigitValue(b[0]);
    var ra, rb := DigitsValue(a[1..]), DigitsValue(b[1..]);
    assert ra < p && rb < p;
    if da < db {
      FrontDigitDecides(da, db, p, ra, rb);
    } else if da > db {
      FrontDigitDecides(db, da, p, rb, ra);
    } else {
      assert a[0] == b[0];
      if |a| > 1 {
        SameLengthDigitsOrder(a[1..], b[1..]);
      }
    }
  }

  /**
   * Numeric pre-release identifiers (no leading zeros): the shorter one is
   * lower, and two of the same length compare as text.
   */
  lemma NumericIdentOrder(a: string, b: string)
    requires IsDigits(a) && IsDigits(b)
    ensures CmpIdent(ToComparable(a), ToComparable(b)) ==
      (if |a| != |b| then CmpInt(|a|, |b|) else CmpString(a, b))
  {
    if |a| < |b| {
      LeadingDigitBound(b);
      Pow10Monotone(|a|, |b| - 1);
    } else if |a| > |b| {
      LeadingDigitBound(a);
      Pow10Monotone(|b|, |a| - 1);
    } else {
      SameLengthDigitsOrder(a, b);
    }
  }

  /** Converting ignores letter case. */
  lemma ToComparableLower(part: string)
    ensures ToComparable(Lower(part)) == ToComparable(part)
  {
    LowerKeepsDigits(part);
    LowerIdempotent(part);
  }

  /**
   * Two well-formed pre-release identifiers have equal precedence exactly
   * when they agree up to letter case.
   */
  lemma IdentEquivalence(a: string, b: string)
    requires IsPrereleaseIdent(a) && IsPrereleaseIdent(b)
    ensures CmpIdent(ToComparable(a), ToComparable(b)) == 0 <==> Lower(a) == Lower(b)
  {
    LowerKeepsDigits(a);
    LowerKeepsDigits(b);
    StrictAlphaNumNotAllDigits(a);
    StrictAlphaNumNotAllDigits(b);
    CmpIdentZero(ToComparable(a), ToComparable(b));
    if IsAllDigits(a) && IsAllDigits(b) {
      ShowOfValue(a);
      ShowOfValue(b);
    }
  }

  /** Splitting into identifiers and converting them ignores letter case. */
  lemma GetPartsLower(s: string)
    ensures GetParts(Lower(s)) == GetParts(s)
  {
    SplitLower(s, '.');
    var parts := Split(s, '.');
    forall k | 0 <= k < |parts| ensures GetParts(Lower(s))[k] == GetParts(s)[k] {
      ToComparableLower(parts[k]);
    }
  }

  /** Identifiers of a dotted concatenation are the identifiers of each side. */
  lemma GetPartsConcat(s: string, t: string)
    ensures GetParts(s + "." + t) == GetParts(s) + GetParts(t)
  {
    SplitConcat(s, t, '.');
  }
}
