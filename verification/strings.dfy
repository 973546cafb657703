/**
 * Character classes and string primitives that Python's `str` methods and the `re`
 * character classes provide: whitespace, word characters, lower-casing, `strip`,
 * literal search and the decimal rendering of a natural number.
 */
module Strings {
  import opened Basics

  /** `str.isspace()`, which is also what `\s` and argument-less `str.strip()` use on `str`. */
  predicate IsSpace(c: char) {
    || ('\t' <= c <= '\r')
    || ('\U{1C}' <= c <= '\U{1F}')
    || c == ' '
    || c == '\U{85}'
    || c == '\U{A0}'
    || c == '\U{1680}'
    || ('\U{2000}' <= c <= '\U{200A}')
    || c == '\U{2028}'
    || c == '\U{2029}'
    || c == '\U{202F}'
    || c == '\U{205F}'
    || c == '\U{3000}'
  }

  predicate NotSpace(c: char) {
    !IsSpace(c)
  }

  /** `\w`, restricted to ASCII: letters, digits and the underscore. */
  predicate IsWordChar(c: char) {
    ('a' <= c <= 'z') || ('A' <= c <= 'Z') || ('0' <= c <= '9') || c == '_'
  }

  predicate IsAsciiLetter(c: char) {
    ('a' <= c <= 'z') || ('A' <= c <= 'Z')
  }

  predicate IsDigit(c: char) {
    '0' <= c <= '9'
  }

  /** Every character is whitespace (the empty string included): `s.strip()` is falsy. */
  predicate IsBlank(s: string) {
    forall k :: 0 <= k < |s| ==> IsSpace(s[k])
  }

  /** Neither end of `s` is whitespace: the shape of everything `str.strip()` returns. */
  predicate IsStripped(s: string) {
    s == [] || (!IsSpace(s[0]) && !IsSpace(s[|s| - 1]))
  }

  /** ASCII lower-casing of one character. */
  function LowerChar(c: char): char {
    if 'A' <= c <= 'Z' then (c as int + 32) as char else c
  }

  /** `str.lower()` on ASCII letters; every other character is kept. */
  function Lower(s: string): (r: string)
    ensures |r| == |s|
    ensures forall k :: 0 <= k < |s| ==> r[k] == LowerChar(s[k])
  {
    seq(|s|, k requires 0 <= k < |s| => LowerChar(s[k]))
  }

  /** `lit` occurs in `s` at position `i`. */
  predicate StartsAt(s: string, i: nat, lit: string) {
    i + |lit| <= |s| && s[i..i + |lit|] == lit
  }

  /** `lit`, given in lower case, occurs in `s` at position `i` ignoring ASCII case. */
  predicate StartsAtFolded(s: string, i: nat, lit: string) {
    i + |lit| <= |s| && Lower(s[i..i + |lit|]) == lit
  }

  /** The end of the longest run of characters satisfying `P` that starts at `i`. */
  function RunEnd(s: string, i: nat, P: char -> bool): (e: nat)
    requires i <= |s|
    ensures i <= e <= |s|
    ensures forall k :: i <= k < e ==> P(s[k])
    ensures e == |s| || !P(s[e])
    decreases |s| - i
  {
    if i == |s| || !P(s[i]) then i else RunEnd(s, i + 1, P)
  }

  /** The first position at or after `i` where `lit` occurs, if any. */
  function FindFrom(s: string, lit: string, i: nat): (r: Option<nat>)
    requires i <= |s|
    ensures r.Some? ==> i <= r.value && StartsAt(s, r.value, lit)
    ensures r.Some? ==> forall k :: i <= k < r.value ==> !StartsAt(s, k, lit)
    ensures r.None? ==> forall k :: i <= k <= |s| ==> !StartsAt(s, k, lit)
    decreases |s| - i
  {
    if StartsAt(s, i, lit) then Some(i)
    else if i == |s| then None
    else FindFrom(s, lit, i + 1)
  }

  /** A slice is the slice up to any inner point followed by the slice from it. */
  lemma SliceSplit(s: string, a: nat, b: nat, c: nat)
    requires a <= b <= c <= |s|
    ensures s[a..c] == s[a..b] + s[b..c]
  {
  }

  /** A run that is followed by a character outside it, or by the end, is the longest run. */
  lemma {:induction false} RunEndIs(s: string, i: nat, P: char -> bool, e: nat)
    requires i <= e <= |s|
    requires forall k :: i <= k < e ==> P(s[k])
    requires e == |s| || !P(s[e])
    ensures RunEnd(s, i, P) == e
    decreases e - i
  {
    if i < e {
      RunEndIs(s, i + 1, P, e);
    }
  }

  /** An occurrence with none before it, from `i` on, is the one `FindFrom` finds. */
  lemma {:induction false} FindFromIs(s: string, lit: string, i: nat, c: nat)
    requires i <= c && StartsAt(s, c, lit)
    requires forall k :: i <= k < c ==> !StartsAt(s, k, lit)
    ensures FindFrom(s, lit, i) == Some(c)
    decreases c - i
  {
    if i < c {
      FindFromIs(s, lit, i + 1, c);
    }
  }

  /** Python's `lit in s`. */
  predicate Contains(s: string, lit: string) {
    FindFrom(s, lit, 0).Some?
  }

  /** The start of the whitespace tail of `s[lo..hi]`: the largest `b` with `s[b..hi]` blank. */
  function TrailingSpaceStart(s: string, lo: nat, hi: nat): (b: nat)
    requires lo <= hi <= |s|
    ensures lo <= b <= hi
    ensures forall k :: b <= k < hi ==> IsSpace(s[k])
    ensures b == lo || !IsSpace(s[b - 1])
    decreases hi - lo
  {
    if hi == lo || !IsSpace(s[hi - 1]) then hi else TrailingSpaceStart(s, lo, hi - 1)
  }

  /**
   * `str.strip()`: the result is the part of `s` left after removing the whitespace at
   * both ends, and nothing else.
   */
  function Strip(s: string): (r: string)
    ensures IsStripped(r)
    ensures r == [] <==> IsBlank(s)
    ensures IsBlank(s[..RunEnd(s, 0, IsSpace)])
    ensures RunEnd(s, 0, IsSpace) + |r| <= |s|
    ensures r == s[RunEnd(s, 0, IsSpace)..RunEnd(s, 0, IsSpace) + |r|]
    ensures IsBlank(s[RunEnd(s, 0, IsSpace) + |r|..])
  {
    var a := RunEnd(s, 0, IsSpace);
    var b := TrailingSpaceStart(s, a, |s|);
    s[a..b]
  }

  /** The decimal digit character for `d`. */
  function DigitChar(d: nat): (c: char)
    requires d < 10
    ensures IsDigit(c)
  {
    (d + '0' as int) as char
  }

  /** Python's `str(n)` for a natural number: its decimal digits, most significant first. */
  function NatToDecimal(n: nat): (r: string)
    ensures |r| >= 1
    ensures forall k :: 0 <= k < |r| ==> IsDigit(r[k])
    ensures r[0] == '0' ==> n == 0
    decreases n
  {
    if n < 10 then [DigitChar(n)] else NatToDecimal(n / 10) + [DigitChar(n % 10)]
  }

  function DigitValue(c: char): (d: nat)
    requires IsDigit(c)
    ensures d < 10 && DigitChar(d) == c
  {
    c as int - '0' as int
  }

  /** The number a string of decimal digits denotes; the reading direction of `NatToDecimal`. */
  function DecimalValue(s: string): nat
    requires forall k :: 0 <= k < |s| ==> IsDigit(s[k])
    decreases |s|
  {
    if s == [] then 0 else DecimalValue(s[..|s| - 1]) * 10 + DigitValue(s[|s| - 1])
  }

  /** Rendering a number in decimal and reading it back gives the number again. */
  lemma {:induction false} DecimalRoundTrip(n: nat)
    ensures DecimalValue(NatToDecimal(n)) == n
    decreases n
  {
    if n >= 10 {
      var r := NatToDecimal(n);
      DecimalRoundTrip(n / 10);
      assert r[..|r| - 1] == NatToDecimal(n / 10);
    }
  }
}
