/** The string primitives of the Java and JavaScript runtimes that the
    catalogue relies on, restricted to what the model needs.

    Case mapping is ASCII only: `toLowerCase`/`toUpperCase` map `A`-`Z` and
    `a`-`z` and leave every other character alone. The whitespace classes are
    written out in full because Java and JavaScript disagree about them. */
module Text {

  /** `Character.isWhitespace`: the Unicode space, line and paragraph
      separators except the no-break spaces U+00A0, U+2007 and U+202F, plus
      U+0009-U+000D and U+001C-U+001F. `String.isBlank` uses this class. */
  predicate IsJavaWhitespace(c: char) {
    var n := c as int;
    || (0x09 <= n <= 0x0D)
    || (0x1C <= n <= 0x20)
    || n == 0x1680
    || (0x2000 <= n <= 0x2006)
    || (0x2008 <= n <= 0x200A)
    || n == 0x2028 || n == 0x2029 || n == 0x205F || n == 0x3000
  }

  /** What Java's `String.trim` strips: every code unit up to U+0020. */
  predicate IsJavaTrimmed(c: char) {
    c as int <= 0x20
  }

  /** `\s` of `java.util.regex` without UNICODE_CHARACTER_CLASS: `[ \t\n\x0B\f\r]`. */
  predicate IsJavaRegexSpace(c: char) {
    var n := c as int;
    (0x09 <= n <= 0x0D) || n == 0x20
  }

  /** ECMAScript WhiteSpace and LineTerminator: what `String.prototype.trim`
      strips and what `\s` matches in a JavaScript regular expression. */
  predicate IsJsWhitespace(c: char) {
    var n := c as int;
    || (0x09 <= n <= 0x0D)
    || n == 0x20 || n == 0xA0 || n == 0x1680
    || (0x2000 <= n <= 0x200A)
    || n == 0x2028 || n == 0x2029 || n == 0x202F || n == 0x205F
    || n == 0x3000 || n == 0xFEFF
  }

  /** Drops the longest prefix of characters satisfying `drop`. */
  function TrimStart(s: string, drop: char -> bool): (r: string)
    ensures |r| <= |s| && r == s[|s| - |r|..]
    ensures forall i :: 0 <= i < |s| - |r| ==> drop(s[i])
    ensures r == [] || !drop(r[0])
  {
    if |s| > 0 && drop(s[0]) then TrimStart(s[1..], drop) else s
  }

  /** Drops the longest suffix of characters satisfying `drop`. */
  function TrimEnd(s: string, drop: char -> bool): (r: string)
    ensures |r| <= |s| && r == s[..|r|]
    ensures forall i :: |r| <= i < |s| ==> drop(s[i])
    ensures r == [] || !drop(r[|r| - 1])
  {
    if |s| > 0 && drop(s[|s| - 1]) then TrimEnd(s[..|s| - 1], drop) else s
  }

  /** `r` is the factor of `s` starting at `i`, and every character of `s`
      outside it satisfies `drop`. */
  predicate CutAt(s: string, r: string, i: int, drop: char -> bool) {
    && 0 <= i <= |s| - |r|
    && r == s[i..i + |r|]
    && (forall k :: 0 <= k < i ==> drop(s[k]))
    && (forall k :: i + |r| <= k < |s| ==> drop(s[k]))
  }

  /** Both ends stripped: the result is a factor of `s` that neither starts
      nor ends with a dropped character, and everything cut off was dropped. */
  function Trim(s: string, drop: char -> bool): (r: string)
    ensures exists i :: CutAt(s, r, i, drop)
    ensures r == [] || (!drop(r[0]) && !drop(r[|r| - 1]))
  {
    var a := TrimStart(s, drop);
    var r := TrimEnd(a, drop);
    TrimCut(s, a, r, drop);
    r
  }

  /** Trimming changes nothing when both ends are kept characters. */
  lemma TrimKeepsKeptEnds(s: string, drop: char -> bool)
    requires |s| > 0 ==> !drop(s[0]) && !drop(s[|s| - 1])
    ensures Trim(s, drop) == s
  {
    var r := Trim(s, drop);
    var i :| CutAt(s, r, i, drop);
    if |s| > 0 {
      assert i == 0;
      assert i + |r| == |s|;
    }
  }

  /** Cutting a suffix of dropped characters off a suffix whose removed
      prefix was dropped leaves a factor cut out of `s`. */
  lemma TrimCut(s: string, a: string, r: string, drop: char -> bool)
    requires |a| <= |s| && a == s[|s| - |a|..]
    requires forall i :: 0 <= i < |s| - |a| ==> drop(s[i])
    requires |r| <= |a| && r == a[..|r|]
    requires forall i :: |r| <= i < |a| ==> drop(a[i])
    ensures CutAt(s, r, |s| - |a|, drop)
  {
    var i := |s| - |a|;
    assert r == s[i..i + |r|];
    forall k | i + |r| <= k < |s|
      ensures drop(s[k])
    {
      assert s[k] == a[k - i];
    }
  }

  /** Java `String.trim`. */
  function JavaTrim(s: string): string {
    Trim(s, IsJavaTrimmed)
  }

  /** JavaScript `String.prototype.trim`. */
  function JsTrim(s: string): string {
    Trim(s, IsJsWhitespace)
  }

  /** Java `String.isBlank`: empty or only whitespace. */
  predicate JavaIsBlank(s: string) {
    forall i :: 0 <= i < |s| ==> IsJavaWhitespace(s[i])
  }

  /** A character outside the Basic Multilingual Plane, which UTF-16
      writes as a surrogate pair. */
  predicate IsSupplementary(c: char) {
    c as int > 0xFFFF
  }

  /** The length that Java's `String.length()` and JavaScript's `length`
      report: UTF-16 code units, two for a supplementary character. */
  function Utf16Length(s: string): (n: nat)
    ensures |s| <= n <= 2 * |s|
    ensures n == |s| <==> forall i :: 0 <= i < |s| ==> !IsSupplementary(s[i])
  {
    if |s| == 0 then 0
    else
      assert forall i :: 1 <= i < |s| ==> s[1..][i - 1] == s[i];
      (if IsSupplementary(s[0]) then 2 else 1) + Utf16Length(s[1..])
  }

  predicate IsAsciiUpper(c: char) {
    'A' <= c <= 'Z'
  }

  predicate IsAsciiLower(c: char) {
    'a' <= c <= 'z'
  }

  predicate IsAsciiDigit(c: char) {
    '0' <= c <= '9'
  }

  predicate IsAsciiAlnum(c: char) {
    IsAsciiUpper(c) || IsAsciiLower(c) || IsAsciiDigit(c)
  }

  function LowerChar(c: char): (r: char)
    ensures !IsAsciiUpper(r)
    ensures IsAsciiUpper(c) ==> r as int == c as int + 32
    ensures !IsAsciiUpper(c) ==> r == c
  {
    if IsAsciiUpper(c) then (c as int + 32) as char else c
  }

  function UpperChar(c: char): (r: char)
    ensures !IsAsciiLower(r)
    ensures IsAsciiLower(c) ==> r as int == c as int - 32
    ensures !IsAsciiLower(c) ==> r == c
  {
    if IsAsciiLower(c) then (c as int - 32) as char else c
  }

  /** `toLowerCase`, ASCII letters only. */
  function Lower(s: string): (r: string)
    ensures |r| == |s|
    ensures forall i :: 0 <= i < |s| ==> r[i] == LowerChar(s[i])
  {
    seq(|s|, i requires 0 <= i < |s| => LowerChar(s[i]))
  }

  /** Lower-casing changes nothing in a string without capitals. */
  lemma LowerKeepsNonUpper(s: string)
    requires forall i :: 0 <= i < |s| ==> !IsAsciiUpper(s[i])
    ensures Lower(s) == s
  {
  }

  /** `toUpperCase`, ASCII letters only. */
  function Upper(s: string): (r: string)
    ensures |r| == |s|
    ensures forall i :: 0 <= i < |s| ==> r[i] == UpperChar(s[i])
  {
    seq(|s|, i requires 0 <= i < |s| => UpperChar(s[i]))
  }

  /** `t` occurs in `s` as a contiguous factor (`String.contains`,
      JavaScript `includes`, SQL `LIKE '%t%'` with the wildcards escaped). */
  predicate Contains(s: string, t: string) {
    exists i :: 0 <= i <= |s| - |t| && t == Factor(s, i, |t|)
  }

  /** The `n` characters of `s` starting at `i`. */
  function Factor(s: string, i: int, n: nat): string
    requires 0 <= i <= |s| - n
  {
    s[i..i + n]
  }

  predicate StartsWith(s: string, prefix: string) {
    |prefix| <= |s| && s[..|prefix|] == prefix
  }

  /** Java `equalsIgnoreCase` on ASCII text. */
  predicate EqualsIgnoreCase(a: string, b: string) {
    Lower(a) == Lower(b)
  }

  /** Spring Data's `ContainingIgnoreCase`: `upper(column) like upper('%t%')`. */
  predicate ContainsIgnoreCase(s: string, t: string) {
    Contains(Upper(s), Upper(t))
  }

  function DigitChar(d: nat): (c: char)
    requires d < 10
    ensures IsAsciiDigit(c)
  {
    ('0' as int + d) as char
  }

  /** Decimal rendering of a natural number, as `Long.toString` and
      Python's `str` produce it. */
  function NatToString(n: nat): (r: string)
    ensures |r| > 0
    ensures forall i :: 0 <= i < |r| ==> IsAsciiDigit(r[i])
  {
    if n < 10 then [DigitChar(n)] else NatToString(n / 10) + [DigitChar(n % 10)]
  }

  function IntToString(n: int): string {
    if n < 0 then "-" + NatToString(-n) else NatToString(n)
  }

  function DigitValue(c: char): nat
    requires IsAsciiDigit(c)
  {
    c as int - '0' as int
  }

  /** The value a string of decimal digits denotes. */
  function DigitsValue(s: string): nat
    requires forall i :: 0 <= i < |s| ==> IsAsciiDigit(s[i])
  {
    if |s| == 0 then 0 else 10 * DigitsValue(s[..|s| - 1]) + DigitValue(s[|s| - 1])
  }

  /** Rendering a number and reading it back gives the number: the decimal
      form carries the whole value. */
  lemma {:induction false} NatToStringValue(n: nat)
    ensures DigitsValue(NatToString(n)) == n
  {
    if n >= 10 {
      var s := NatToString(n);
      var p := NatToString(n / 10);
      assert s[..|s| - 1] == p;
      NatToStringValue(n / 10);
    }
  }

  /** Distinct numbers render as distinct strings. */
  lemma NatToStringInjective(m: nat, n: nat)
    requires NatToString(m) == NatToString(n)
    ensures m == n
  {
    NatToStringValue(m);
    NatToStringValue(n);
  }
}
