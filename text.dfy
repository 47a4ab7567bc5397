/**
 * The Python 2 `str` operations the version code relies on, over ASCII text:
 * `isdigit()`, `int()`, `lower()` and `split(sep)`. `IndexOf` and `Partition`
 * are not operations of the source: they are the helpers with which the
 * version recognizer finds where the regular expression puts its group
 * boundaries. Decimal rendering (`Show`) is the inverse of `int()` on
 * canonical digit strings and is used to state round trips.
 */
module Text {
  import opened Wrappers

  predicate IsDigit(c: char) {
    '0' <= c <= '9'
  }

  predicate IsAsciiLetter(c: char) {
    'A' <= c <= 'Z' || 'a' <= c <= 'z'
  }

  /** `str.isdigit()`: true exactly for a non-empty string of decimal digits. */
  predicate IsAllDigits(s: string) {
    |s| > 0 && forall i :: 0 <= i < |s| ==> IsDigit(s[i])
  }

  function DigitValue(c: char): (n: nat)
    requires IsDigit(c)
    ensures n < 10
  {
    c as int - '0' as int
  }

  function DigitChar(n: nat): (c: char)
    requires n < 10
    ensures IsDigit(c) && DigitValue(c) == n
  {
    ('0' as int + n) as char
  }

  function Pow10(n: nat): (r: nat)
    ensures r >= 1
    decreases n
  {
    if n == 0 then 1 else 10 * Pow10(n - 1)
  }

  lemma {:induction false} Pow10Monotone(m: nat, n: nat)
    requires m <= n
    ensures Pow10(m) <= Pow10(n)
    decreases n
  {
    if m < n {
      Pow10Monotone(m, n - 1);
    }
  }

  /** `int(s)` for a string of decimal digits; leading zeros are accepted. An `n`-digit string is below 10^n. */
  function DigitsValue(s: string): (r: nat)
    requires forall i :: 0 <= i < |s| ==> IsDigit(s[i])
    ensures r < Pow10(|s|)
    decreases |s|
  {
    if |s| == 0 then 0 else 10 * DigitsValue(s[..|s| - 1]) + DigitValue(s[|s| - 1])
  }

  /** A digit string whose first digit is not zero is at least 10^(n-1). */
  lemma {:induction false} LeadingDigitBound(s: string)
    requires IsAllDigits(s) && s[0] != '0'
    ensures DigitsValue(s) >= Pow10(|s| - 1)
    decreases |s|
  {
    if |s| > 1 {
      var p := s[..|s| - 1];
      assert p[0] == s[0];
      LeadingDigitBound(p);
    }
  }

  lemma ShiftDigit(d: int, q: int, x: int, last: int)
    ensures 10 * (d * q + x) + last == d * (10 * q) + (10 * x + last)
  {
  }

  /** A larger leading digit outweighs any lower digits. */
  lemma FrontDigitDecides(da: nat, db: nat, p: nat, ra: nat, rb: nat)
    requires da < db && ra < p
    ensures da * p + ra < db * p + rb
  {
    MulStep(da, db, p);
  }

  /** Multiples of `p` grow by at least `p` per step. */
  lemma {:induction false} MulStep(x: nat, y: nat, p: nat)
    requires x < y
    ensures x * p + p <= y * p
    decreases y - x
  {
    assert (x + 1) * p == x * p + p;
    if x + 1 < y {
      MulStep(x + 1, y, p);
    }
  }

  /** `int()` read from the front: the first digit weighs 10^(n-1). */
  lemma {:induction false} DigitsValueFront(s: string)
    requires IsAllDigits(s)
    ensures DigitsValue(s) == DigitValue(s[0]) * Pow10(|s| - 1) + DigitsValue(s[1..])
    decreases |s|
  {
    if |s| > 1 {
      var p := s[..|s| - 1];
      var last := DigitValue(s[|s| - 1]);
      var d := DigitValue(s[0]);
      var q := Pow10(|s| - 2);
      assert p[0] == s[0];
      DigitsValueFront(p);
      assert s[1..][..|s| - 2] == p[1..];
      assert DigitsValue(s[1..]) == 10 * DigitsValue(p[1..]) + last;
      assert DigitsValue(s) == 10 * (d * q + DigitsValue(p[1..])) + last;
      assert Pow10(|s| - 1) == 10 * q;
      ShiftDigit(d, q, DigitsValue(p[1..]), last);
    }
  }

  /** Decimal rendering of a natural number, without leading zeros. */
  function Show(n: nat): string
    decreases n
  {
    if n < 10 then [DigitChar(n)] else Show(n / 10) + [DigitChar(n % 10)]
  }

  /** `Show` yields canonical digits that `int()` reads back as the same number. */
  lemma {:induction false} ShowCanonical(n: nat)
    ensures IsAllDigits(Show(n))
    ensures Show(n)[0] == '0' ==> n == 0
    ensures DigitsValue(Show(n)) == n
    decreases n
  {
    if n >= 10 {
      ShowCanonical(n / 10);
      var p := Show(n / 10);
      var s := Show(n);
      assert s == p + [DigitChar(n % 10)];
      assert s[..|s| - 1] == p;
      assert s[0] == p[0];
      assert DigitsValue(s) == 10 * (n / 10) + n % 10;
    }
  }

  /** A digit string whose first digit is not zero has a positive value. */
  lemma {:induction false} PositiveValue(s: string)
    requires IsAllDigits(s) && s[0] != '0'
    ensures DigitsValue(s) >= 1
    decreases |s|
  {
    if |s| > 1 {
      var p := s[..|s| - 1];
      assert p[0] == s[0];
      PositiveValue(p);
    }
  }

  /** On digit strings without a leading zero, `int()` loses nothing: `Show` gives the text back. */
  lemma {:induction false} ShowOfValue(s: string)
    requires IsAllDigits(s) && (s[0] == '0' ==> |s| == 1)
    ensures Show(DigitsValue(s)) == s
    decreases |s|
  {
    var p := s[..|s| - 1];
    var last := s[|s| - 1];
    if |s| == 1 {
      assert DigitsValue(p) == 0;
      assert DigitChar(DigitValue(last)) == last;
    } else {
      assert p[0] == s[0];
      ShowOfValue(p);
      PositiveValue(p);
      var k := DigitsValue(p);
      var r := DigitValue(last);
      assert DigitsValue(s) == 10 * k + r;
      assert (10 * k + r) / 10 == k && (10 * k + r) % 10 == r;
      assert DigitChar(r) == last;
      assert s == p + [last];
    }
  }

  function LowerChar(c: char): char {
    if 'A' <= c <= 'Z' then (c as int + 32) as char else c
  }

  /** `str.lower()`: ASCII upper-case letters become lower case, every other character is kept. */
  function Lower(s: string): string {
    seq(|s|, i requires 0 <= i < |s| => LowerChar(s[i]))
  }

  /**
   * What `lower()` does to each character: the result keeps the length, has no
   * upper-case letter, keeps every non-letter, and maps a letter to itself or
   * to the letter 32 code points above it.
   */
  lemma LowerCharacters(s: string)
    ensures |Lower(s)| == |s|
    ensures forall i :: 0 <= i < |s| ==> !('A' <= Lower(s)[i] <= 'Z')
    ensures forall i :: 0 <= i < |s| && !IsAsciiLetter(s[i]) ==> Lower(s)[i] == s[i]
    ensures forall i :: 0 <= i < |s| && IsAsciiLetter(s[i]) ==>
      IsAsciiLetter(Lower(s)[i]) && (Lower(s)[i] == s[i] || Lower(s)[i] as int == s[i] as int + 32)
  {
  }

  /** Lower-casing keeps digits and non-digits apart, so it does not change `isdigit()`. */
  lemma LowerKeepsDigits(s: string)
    ensures IsAllDigits(Lower(s)) <==> IsAllDigits(s)
    ensures IsAllDigits(s) ==> Lower(s) == s
  {
    assert forall i :: 0 <= i < |s| ==> (IsDigit(Lower(s)[i]) <==> IsDigit(s[i]));
  }

  /** Lower-casing twice is lower-casing once. */
  lemma LowerIdempotent(s: string)
    ensures Lower(Lower(s)) == Lower(s)
  {
  }

  /** Index of the first occurrence of `c` in `s`, if any. */
  function IndexOf(s: string, c: char): (r: Option<nat>)
    ensures r.None? ==> c !in s
    ensures r.Some? ==> r.value < |s| && s[r.value] == c && c !in s[..r.value]
    decreases |s|
  {
    if |s| == 0 then None
    else if s[0] == c then Some(0)
    else match IndexOf(s[1..], c)
      case None =>
        assert s == [s[0]] + s[1..];
        None
      case Some(i) =>
        assert s[..i + 1] == [s[0]] + s[1..][..i];
        Some(i + 1)
  }

  /** Any position holding `c` with no `c` before it is the first occurrence. */
  lemma {:induction false} IndexOfUnique(s: string, c: char, i: nat)
    requires i < |s| && s[i] == c && c !in s[..i]
    ensures IndexOf(s, c) == Some(i)
    decreases i
  {
    if i > 0 {
      assert s[0] == s[..i][0];
      assert s[1..][..i - 1] == s[..i][1..];
      IndexOfUnique(s[1..], c, i - 1);
    }
  }

  /** `s.split(d)`: the pieces between separators, always at least one (possibly empty) piece. */
  function Split(s: string, d: char): (parts: seq<string>)
    ensures |parts| >= 1
    ensures forall k :: 0 <= k < |parts| ==> d !in parts[k]
    decreases |s|
  {
    match IndexOf(s, d)
    case None => [s]
    case Some(i) => [s[..i]] + Split(s[i + 1..], d)
  }

  /** `d.join(parts)`. */
  function Join(parts: seq<string>, d: char): string
    requires |parts| >= 1
    decreases |parts|
  {
    if |parts| == 1 then parts[0] else parts[0] + [d] + Join(parts[1..], d)
  }

  /** Joining the pieces of a split gives back the original string. */
  lemma {:induction false} JoinSplit(s: string, d: char)
    ensures Join(Split(s, d), d) == s
    decreases |s|
  {
    match IndexOf(s, d)
    case None =>
    case Some(i) =>
      var rest := Split(s[i + 1..], d);
      assert Split(s, d) == [s[..i]] + rest;
      assert Split(s, d)[1..] == rest;
      JoinSplit(s[i + 1..], d);
      assert Join(Split(s, d), d) == s[..i] + [d] + Join(rest, d);
      assert s == s[..i] + [d] + s[i + 1..];
  }

  /** Splitting a join of separator-free pieces gives back exactly those pieces. */
  lemma {:induction false} SplitJoin(parts: seq<string>, d: char)
    requires |parts| >= 1
    requires forall k :: 0 <= k < |parts| ==> d !in parts[k]
    ensures Split(Join(parts, d), d) == parts
    decreases |parts|
  {
    if |parts| > 1 {
      var head := parts[0];
      var rest := Join(parts[1..], d);
      var s := head + [d] + rest;
      assert s[..|head|] == head;
      IndexOfUnique(s, d, |head|);
      assert s[|head| + 1..] == rest;
      SplitJoin(parts[1..], d);
      assert parts == [head] + parts[1..];
    }
  }

  /** A character other than the separator that no piece contains is absent from the join. */
  lemma {:induction false} JoinAvoids(parts: seq<string>, d: char, c: char)
    requires |parts| >= 1 && c != d
    requires forall k :: 0 <= k < |parts| ==> c !in parts[k]
    ensures c !in Join(parts, d)
    decreases |parts|
  {
    if |parts| > 1 {
      JoinAvoids(parts[1..], d, c);
    }
  }

  /** Splitting at a separator that was inserted between two strings splits each of them. */
  lemma {:induction false} SplitConcat(s: string, t: string, d: char)
    ensures Split(s + [d] + t, d) == Split(s, d) + Split(t, d)
    decreases |s|
  {
    var u := s + [d] + t;
    match IndexOf(s, d)
    case None =>
      assert u[..|s|] == s;
      IndexOfUnique(u, d, |s|);
      assert u[|s| + 1..] == t;
    case Some(i) =>
      assert u[..i] == s[..i];
      IndexOfUnique(u, d, i);
      assert u[i + 1..] == s[i + 1..] + [d] + t;
      SplitConcat(s[i + 1..], t, d);
  }

  /** Lower-casing does not create a character that is not a letter. */
  lemma LowerAvoids(s: string, d: char)
    requires !IsAsciiLetter(d) && d !in s
    ensures d !in Lower(s)
  {
    var l := Lower(s);
    forall i | 0 <= i < |l| ensures l[i] != d {
      assert s[i] != d;
    }
  }

  /** Splitting commutes with lower-casing when the separator is not a letter. */
  lemma {:induction false} SplitLower(s: string, d: char)
    requires !IsAsciiLetter(d)
    ensures |Split(Lower(s), d)| == |Split(s, d)|
    ensures forall k :: 0 <= k < |Split(s, d)| ==> Split(Lower(s), d)[k] == Lower(Split(s, d)[k])
    decreases |s|
  {
    var l := Lower(s);
    match IndexOf(s, d)
    case None =>
      LowerAvoids(s, d);
      assert Split(l, d) == [l];
    case Some(i) =>
      assert l[..i] == Lower(s[..i]);
      LowerAvoids(s[..i], d);
      IndexOfUnique(l, d, i);
      assert l[i + 1..] == Lower(s[i + 1..]);
      SplitLower(s[i + 1..], d);
      var a, b := Split(s, d), Split(l, d);
      var ra, rb := Split(s[i + 1..], d), Split(l[i + 1..], d);
      assert a == [s[..i]] + ra;
      assert b == [l[..i]] + rb;
      forall k | 0 <= k < |a| ensures b[k] == Lower(a[k]) {
        if k > 0 {
          assert a[k] == ra[k - 1] && b[k] == rb[k - 1];
        }
      }
  }

  /** The text after a marker character, or nothing when the part is absent. */
  function Tagged(marker: char, part: Option<string>): string {
    match part
    case None => ""
    case Some(x) => [marker] + x
  }

  /** Cuts `s` at the first `c`: the text before it, and the text after it if `c` occurs. */
  function Partition(s: string, c: char): (r: (string, Option<string>))
    ensures c !in r.0
    ensures s == r.0 + Tagged(c, r.1)
  {
    match IndexOf(s, c)
    case None => (s, None)
    case Some(i) =>
      assert s == s[..i] + ([c] + s[i + 1..]);
      (s[..i], Some(s[i + 1..]))
  }

  /** Cutting at the first `c` recovers the parts of a string that has no `c` before its marker. */
  lemma PartitionTagged(a: string, c: char, part: Option<string>)
    requires c !in a
    ensures Partition(a + Tagged(c, part), c) == (a, part)
  {
    match part
    case None =>
      assert a + Tagged(c, part) == a;
      assert IndexOf(a, c).None?;
    case Some(x) =>
      var s := a + Tagged(c, part);
      assert s[..|a|] == a;
      IndexOfUnique(s, c, |a|);
      assert s[|a| + 1..] == x;
  }
}
