/** String helpers for the JavaScript string operations the application uses:
    number-to-string conversion, `toLowerCase`, `trim`, `includes`, `localeCompare`
    (as plain code-unit order) and fixed-width zero padding. Case mapping and
    whitespace are ASCII-only here. */
module Text {

  predicate IsDigit(c: char) { '0' <= c <= '9' }

  predicate AllDigits(s: string) { forall i :: 0 <= i < |s| ==> IsDigit(s[i]) }

  function DigitValue(c: char): (d: nat)
    requires IsDigit(c)
    ensures d < 10
  {
    (c as int) - ('0' as int)
  }

  function DigitChar(d: nat): (c: char)
    requires d < 10
    ensures IsDigit(c) && DigitValue(c) == d
  {
    (('0' as int) + d) as char
  }

  /** `${n}` for a non-negative integer: decimal digits, no leading zeros. */
  function NatToString(n: nat): (s: string)
    ensures |s| >= 1 && AllDigits(s)
    ensures n < 10 <==> |s| == 1
  {
    if n < 10 then [DigitChar(n)] else NatToString(n / 10) + [DigitChar(n % 10)]
  }

  /** The value of a string of decimal digits. */
  function ParseNat(s: string): nat
    requires AllDigits(s)
  {
    if s == [] then 0 else 10 * ParseNat(s[..|s| - 1]) + DigitValue(s[|s| - 1])
  }

  lemma {:induction false} ParseNatToString(n: nat)
    ensures ParseNat(NatToString(n)) == n
  {
    if n >= 10 {
      var s := NatToString(n);
      assert s[..|s| - 1] == NatToString(n / 10);
      ParseNatToString(n / 10);
    }
  }

  /** `${i}` for any integer: a minus sign before the digits of a negative number. */
  function IntToString(i: int): (s: string)
    ensures |s| >= 1
    ensures i >= 0 ==> s == NatToString(i)
    ensures i < 0 ==> s == "-" + NatToString(-i)
  {
    if i >= 0 then NatToString(i) else "-" + NatToString(-i)
  }

  // ---------------------------------------------------------------------
  // Case mapping, trimming, substring search.

  function LowerChar(c: char): char {
    if 'A' <= c <= 'Z' then (c as int + 32) as char else c
  }

  function UpperChar(c: char): char {
    if 'a' <= c <= 'z' then (c as int - 32) as char else c
  }

  /** `toLowerCase`, ASCII letters only. */
  function Lower(s: string): (r: string)
    ensures |r| == |s|
    ensures forall i :: 0 <= i < |s| ==> r[i] == LowerChar(s[i])
  {
    seq(|s|, i requires 0 <= i < |s| => LowerChar(s[i]))
  }

  /** `str.charAt(0).toUpperCase() + str.slice(1)`. */
  function Capitalize(s: string): (r: string)
    ensures |r| == |s|
    ensures s != [] ==> r[0] == UpperChar(s[0]) && r[1..] == s[1..]
  {
    if s == [] then [] else [UpperChar(s[0])] + s[1..]
  }

  predicate IsSpace(c: char) {
    c == ' ' || c == '\t' || c == '\n' || c == '\r' || c == '\U{000B}' || c == '\U{000C}'
  }

  /** `r` is `s` without its first `k` characters, all of them white space. */
  predicate SpaceBefore(s: string, r: string, k: int) {
    0 <= k <= |s| && r == s[k..] && forall i :: 0 <= i < k ==> IsSpace(s[i])
  }

  /** `r` is `s` without its last `|s| - k` characters, all of them white space. */
  predicate SpaceAfter(s: string, r: string, k: int) {
    0 <= k <= |s| && r == s[..k] && forall i :: k <= i < |s| ==> IsSpace(s[i])
  }

  function TrimStart(s: string): (r: string)
    ensures r == [] || !IsSpace(r[0])
    ensures exists k :: SpaceBefore(s, r, k)
  {
    if s != [] && IsSpace(s[0]) then
      var r := TrimStart(s[1..]);
      var k :| SpaceBefore(s[1..], r, k);
      SpaceBeforeGrows(s, r, k);
      r
    else
      assert SpaceBefore(s, s, 0);
      s
  }

  lemma SpaceBeforeGrows(s: string, r: string, k: int)
    requires s != [] && IsSpace(s[0]) && SpaceBefore(s[1..], r, k)
    ensures SpaceBefore(s, r, k + 1)
  {
    assert s[1..][k..] == s[k + 1..];
  }

  function TrimEnd(s: string): (r: string)
    ensures r == [] || !IsSpace(r[|r| - 1])
    ensures exists k :: SpaceAfter(s, r, k)
  {
    if s != [] && IsSpace(s[|s| - 1]) then
      var r := TrimEnd(s[..|s| - 1]);
      var k :| SpaceAfter(s[..|s| - 1], r, k);
      SpaceAfterGrows(s, r, k);
      r
    else
      assert SpaceAfter(s, s, |s|);
      s
  }

  lemma SpaceAfterGrows(s: string, r: string, k: int)
    requires s != [] && IsSpace(s[|s| - 1]) && SpaceAfter(s[..|s| - 1], r, k)
    ensures SpaceAfter(s, r, k)
  {
    assert s[..|s| - 1][..k] == s[..k];
  }

  /** `r` is the slice `s[a..b]` and only white space lies outside it. */
  predicate SpaceAround(s: string, r: string, a: int, b: int) {
    0 <= a <= b <= |s| && r == s[a..b] &&
    (forall i :: 0 <= i < a ==> IsSpace(s[i])) && (forall i :: b <= i < |s| ==> IsSpace(s[i]))
  }

  /** `trim`: drops leading and trailing white space. */
  function Trim(s: string): (r: string)
    ensures r == [] || (!IsSpace(r[0]) && !IsSpace(r[|r| - 1]))
    ensures exists a, b :: SpaceAround(s, r, a, b)
  {
    var t := TrimStart(s);
    var r := TrimEnd(t);
    assert r != [] ==> r[0] == t[0];
    TrimKeepsMiddle(s, t, r);
    r
  }

  /** Trimming one end and then the other leaves a slice with white space on both sides of it. */
  lemma TrimKeepsMiddle(s: string, t: string, r: string)
    requires t == TrimStart(s) && r == TrimEnd(t)
    ensures exists a, b :: SpaceAround(s, r, a, b)
  {
    var a :| SpaceBefore(s, t, a);
    var k :| SpaceAfter(t, r, k);
    SliceAround(s, t, r, a, k);
  }

  lemma SliceAround(s: string, t: string, r: string, a: int, k: int)
    requires SpaceBefore(s, t, a) && SpaceAfter(t, r, k)
    ensures SpaceAround(s, r, a, a + k)
  {
    forall i | a + k <= i < |s|
      ensures IsSpace(s[i])
    {
      assert s[i] == t[i - a];
    }
  }

  /** A string with no white space at either end trims to itself. */
  lemma NoBlankEnds(a: string)
    requires a != [] && !IsSpace(a[0]) && !IsSpace(a[|a| - 1])
    ensures Trim(a) == a
  {
    assert TrimStart(a) == a;
    assert TrimEnd(a) == a;
  }

  predicate IsPrefix(p: string, s: string) {
    |p| <= |s| && s[..|p|] == p
  }

  /** `includes`: `sub` occurs somewhere in `s`. */
  predicate Contains(s: string, sub: string)
    decreases |s|
  {
    IsPrefix(sub, s) || (s != [] && Contains(s[1..], sub))
  }

  /** `a.localeCompare(b) <= 0`, taken as plain lexicographic order of code units. */
  predicate LexLessEq(a: string, b: string)
    decreases |a|
  {
    a == [] || (b != [] && (a[0] < b[0] || (a[0] == b[0] && LexLessEq(a[1..], b[1..]))))
  }

  // ---------------------------------------------------------------------
  // Fixed-width zero-padded numbers, as in ISO dates.

  lemma ParseNatSnoc(s: string, c: char)
    requires AllDigits(s) && IsDigit(c)
    ensures AllDigits(s + [c]) && ParseNat(s + [c]) == 10 * ParseNat(s) + DigitValue(c)
  {
    assert (s + [c])[..|s|] == s;
  }

  /** Two digits with a leading zero (`padStart(2, "0")`). */
  function Pad2(n: nat): (s: string)
    requires n < 100
    ensures |s| == 2 && AllDigits(s) && ParseNat(s) == n
  {
    var hi := [DigitChar(n / 10)];
    ParseNatSnoc([], DigitChar(n / 10));
    ParseNatSnoc(hi, DigitChar(n % 10));
    hi + [DigitChar(n % 10)]
  }

  /** Four digits with leading zeros. */
  function Pad4(n: nat): (s: string)
    requires n < 10000
    ensures |s| == 4 && AllDigits(s) && ParseNat(s) == n
  {
    var s1 := [DigitChar(n / 1000)];
    ParseNatSnoc([], DigitChar(n / 1000));
    var s2 := s1 + [DigitChar(n / 100 % 10)];
    ParseNatSnoc(s1, DigitChar(n / 100 % 10));
    var s3 := s2 + [DigitChar(n / 10 % 10)];
    ParseNatSnoc(s2, DigitChar(n / 10 % 10));
    ParseNatSnoc(s3, DigitChar(n % 10));
    assert ParseNat(s2) == n / 100;
    assert ParseNat(s3) == n / 10;
    s3 + [DigitChar(n % 10)]
  }
}
