/** The input helpers of the frontend's sanitization service: trimming and
    truncating typed input, the phone and e-mail patterns, and stripping
    special characters. The DOM-based helpers are not part of this model. */
module Sanitization {
  import opened Text
  import opened Seqs

  /** `sanitizeInput`'s default length bound. */
  const DefaultMaxLength: int := 255

  /** `substring(0, n)`: a negative bound counts as 0, a bound past the end
      as the length. */
  function Substring0(s: string, n: int): (r: string)
    ensures |r| == if n <= 0 then 0 else if n < |s| then n else |s|
    ensures r == s[..|r|]
  {
    if n <= 0 then [] else Take(s, n)
  }

  /** `input.trim().substring(0, maxLength)`. */
  function SanitizeInput(input: string, maxLength: int): (r: string)
    ensures StartsWith(JsTrim(input), r)
    ensures |r| <= |JsTrim(input)|
    ensures maxLength >= 0 ==> |r| <= maxLength
    ensures 0 <= |JsTrim(input)| <= maxLength ==> r == JsTrim(input)
    ensures maxLength >= 0 && |JsTrim(input)| > maxLength ==> |r| == maxLength
  {
    Substring0(JsTrim(input), maxLength)
  }

  /** A trimmed string is its own trim. */
  lemma {:induction false} TrimIdempotent(s: string, drop: char -> bool)
    ensures Trim(Trim(s, drop), drop) == Trim(s, drop)
  {
    var r := Trim(s, drop);
    if r != [] {
      assert TrimStart(r, drop) == r;
      assert TrimEnd(r, drop) == r;
    }
  }

  /** Input that fits is trimmed once and for all: sanitizing again
      changes nothing. */
  lemma SanitizeShortInputIdempotent(input: string, maxLength: int)
    requires |JsTrim(input)| <= maxLength
    ensures SanitizeInput(SanitizeInput(input, maxLength), maxLength) == SanitizeInput(input, maxLength)
  {
    TrimIdempotent(input, IsJsWhitespace);
  }

  /** Truncation can leave a trailing space that a second pass trims, so
      `sanitizeInput` is not idempotent in general. */
  lemma SanitizeNotIdempotent()
    ensures SanitizeInput(SanitizeInput("a b", 2), 2) == "a"
    ensures SanitizeInput("a b", 2) == "a "
  {
    assert TrimStart("a b", IsJsWhitespace) == "a b";
    assert TrimEnd("a b", IsJsWhitespace) == "a b";
    assert JsTrim("a b") == "a b";
    assert SanitizeInput("a b", 2) == "a ";
    assert TrimStart("a ", IsJsWhitespace) == "a ";
    assert TrimEnd("a ", IsJsWhitespace) == "a";
    assert JsTrim("a ") == "a";
  }

  // ------------------------------------------------------------------ phone

  /** The class `[0-9+\-\s()]`. */
  predicate PhoneChar(c: char) {
    IsAsciiDigit(c) || c == '+' || c == '-' || IsJsWhitespace(c) || c == '(' || c == ')'
  }

  /** `/^[0-9+\-\s()]{7,}$/.test(phone)`, scanning once. */
  method IsValidPhoneNumber(phone: string) returns (ok: bool)
    ensures ok <==> |phone| >= 7 && forall i :: 0 <= i < |phone| ==> PhoneChar(phone[i])
  {
    if |phone| < 7 {
      return false;
    }
    var i := 0;
    while i < |phone|
      invariant 0 <= i <= |phone|
      invariant forall k :: 0 <= k < i ==> PhoneChar(phone[k])
    {
      if !PhoneChar(phone[i]) {
        return false;
      }
      i := i + 1;
    }
    return true;
  }

  // ----------------------------------------------------------------- e-mail

  /** The class `[^\s@]`. */
  predicate EmailChar(c: char) {
    !IsJsWhitespace(c) && c != '@'
  }

  /** `/^[^\s@]+@[^\s@]+\.[^\s@]+$/` matches with its `@` at `at` and its
      literal `.` at `dot`. */
  predicate EmailSplit(s: string, at: int, dot: int) {
    && 0 < at && at + 1 < dot && dot + 1 < |s|
    && s[at] == '@' && s[dot] == '.'
    && (forall k :: 0 <= k < |s| && k != at ==> EmailChar(s[k]))
  }

  /** What the e-mail pattern accepts: some placement of `@` and `.` matches. */
  ghost predicate EmailPattern(s: string) {
    exists at, dot :: EmailSplit(s, at, dot)
  }

  /** Position of the first `@`, or the length when there is none. */
  function FirstAt(s: string): (i: nat)
    ensures i <= |s|
    ensures i < |s| ==> s[i] == '@'
    ensures forall k :: 0 <= k < i ==> s[k] != '@'
  {
    if |s| == 0 then 0
    else if s[0] == '@' then 0
    else 1 + FirstAt(s[1..])
  }

  /** `isValidEmail`: one `@`, not first; no whitespace; and after the `@`
      a `.` that is neither the domain's first nor its last character. */
  function IsValidEmail(s: string): (ok: bool)
    ensures ok <==> EmailPattern(s)
  {
    var at := FirstAt(s);
    var ok :=
      && 0 < at < |s|
      && (forall k :: 0 <= k < |s| ==> !IsJsWhitespace(s[k]))
      && (forall k :: at < k < |s| ==> s[k] != '@')
      && (exists dot :: at + 1 < dot < |s| - 1 && s[dot] == '.');
    assert ok ==> EmailPattern(s) by {
      if ok {
        var dot :| at + 1 < dot < |s| - 1 && s[dot] == '.';
        assert EmailSplit(s, at, dot);
      }
    }
    assert EmailPattern(s) ==> ok by {
      if EmailPattern(s) {
        var a, d :| EmailSplit(s, a, d);
        assert at == a by {
          assert s[a] == '@';
        }
        assert forall k :: 0 <= k < |s| ==> !IsJsWhitespace(s[k]) by {
          forall k | 0 <= k < |s|
            ensures !IsJsWhitespace(s[k])
          {
            if k != a {
              assert EmailChar(s[k]);
            }
          }
        }
        assert forall k :: at < k < |s| ==> s[k] != '@' by {
          forall k | at < k < |s|
            ensures s[k] != '@'
          {
            assert EmailChar(s[k]);
          }
        }
      }
    }
    ok
  }

  /** Every accepted address has exactly one `@`. */
  lemma AcceptedEmailHasOneAt(s: string, i: int, j: int)
    requires IsValidEmail(s)
    requires 0 <= i < |s| && 0 <= j < |s| && s[i] == '@' && s[j] == '@'
    ensures i == j
  {
    var at, dot :| EmailSplit(s, at, dot);
  }

  // ------------------------------------------------------ special characters

  /** The class `[a-zA-Z0-9${allowedChars}]`: ASCII letters and digits plus
      whatever `allowed` stands for. */
  predicate Kept(c: char, allowed: char -> bool) {
    IsAsciiAlnum(c) || allowed(c)
  }

  /** `removeSpecialCharacters`: deletes every character outside the class,
      keeping the rest in order. Each kept character occurs as often as in
      the text, which with the subsequence clause fixes the result. */
  function RemoveSpecialCharacters(text: string, allowed: char -> bool): (r: string)
    ensures forall i :: 0 <= i < |r| ==> Kept(r[i], allowed)
    ensures forall i :: 0 <= i < |text| && Kept(text[i], allowed) ==> text[i] in r
    ensures forall c :: multiset(r)[c] == if Kept(c, allowed) then multiset(text)[c] else 0
    ensures IsSubsequence(r, text)
  {
    FilterIsSubsequence(text, c => Kept(c, allowed));
    FilterMultiset(text, c => Kept(c, allowed));
    Filter(text, c => Kept(c, allowed))
  }

  /** The default `allowedChars` is empty: nothing beyond letters and digits. */
  predicate NoExtra(c: char) {
    false
  }

  /** With the default class the result is exactly the ASCII letters and
      digits of the text, in order. */
  lemma DefaultKeepsAlnum(text: string)
    ensures RemoveSpecialCharacters(text, NoExtra) == Filter(text, IsAsciiAlnum)
  {
    FilterCongruent(text, c => Kept(c, NoExtra), IsAsciiAlnum);
  }

  /** Removing special characters twice removes nothing more. */
  lemma RemoveSpecialCharactersIdempotent(text: string, allowed: char -> bool)
    ensures RemoveSpecialCharacters(RemoveSpecialCharacters(text, allowed), allowed)
         == RemoveSpecialCharacters(text, allowed)
  {
    var r := RemoveSpecialCharacters(text, allowed);
    FilterAll(r, c => Kept(c, allowed));
  }
}
