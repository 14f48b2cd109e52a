/** `SlugGenerator.generate`: lower-case, trim, strip accents, turn runs of
    whitespace and then runs of anything but `a`-`z`/`0`-`9` into one hyphen,
    collapse hyphens, drop a leading and a trailing hyphen.

    Unicode canonical decomposition is the parameter `decompose` (the
    decomposition of one character) and the mark category `\p{M}` is the
    parameter `isMark`. Canonical reordering only permutes marks, which the
    next step deletes, so decomposing character by character is enough.

    The five regex passes are proved equal to a one-pass reference that
    keeps letters and digits and writes one hyphen between two groups of
    them; the properties of the slug are proved on the reference. */
module SlugGenerator {
  import opened Wrappers
  import opened Text
  import Seqs

  predicate IsLowerAlnum(c: char) {
    'a' <= c <= 'z' || '0' <= c <= '9'
  }

  /** `[^a-z0-9]`. */
  predicate NotLowerAlnum(c: char) {
    !IsLowerAlnum(c)
  }

  predicate IsHyphen(c: char) {
    c == '-'
  }

  predicate IsSlugChar(c: char) {
    IsLowerAlnum(c) || c == '-'
  }

  /** Only `a`-`z`, `0`-`9` and `-`; no hyphen first, last, or next to
      another hyphen. */
  predicate WellFormed(s: string) {
    && (forall i :: 0 <= i < |s| ==> IsSlugChar(s[i]))
    && (|s| > 0 ==> s[0] != '-' && s[|s| - 1] != '-')
    && (forall i :: 0 <= i < |s| - 1 && s[i] == '-' ==> s[i + 1] != '-')
  }

  // ------------------------------------------------------- the regex passes

  /** `replaceAll("P+", r)`: each maximal run of characters satisfying `p`
      becomes the one character `r`. */
  function ReplaceRuns(s: string, p: char -> bool, r: char): string
    decreases |s|
  {
    if |s| == 0 then []
    else if p(s[0]) then [r] + ReplaceRuns(TrimStart(s[1..], p), p, r)
    else [s[0]] + ReplaceRuns(s[1..], p, r)
  }

  /** The same replacement read one character at a time: `pending` says a
      run has begun whose replacement is not written yet. */
  function Squeeze(s: string, p: char -> bool, r: char, pending: bool): string
    decreases |s|
  {
    if |s| == 0 then (if pending then [r] else [])
    else if p(s[0]) then Squeeze(s[1..], p, r, true)
    else (if pending then [r] else []) + [s[0]] + Squeeze(s[1..], p, r, false)
  }

  /** `replaceAll("^-|-$", "")`: at most one hyphen goes at each end. */
  function StripLeading(s: string): string {
    if |s| > 0 && s[0] == '-' then s[1..] else s
  }

  function StripTrailing(s: string): string {
    if |s| > 0 && s[|s| - 1] == '-' then s[..|s| - 1] else s
  }

  /** Canonical decomposition, one character at a time. */
  function Decompose(s: string, decompose: char -> string): string
    decreases |s|
  {
    if |s| == 0 then [] else decompose(s[0]) + Decompose(s[1..], decompose)
  }

  /** The text the hyphenation passes work on: lower-cased, trimmed,
      decomposed and stripped of marks. */
  function Normalize(s: string, decompose: char -> string, isMark: char -> bool): string {
    Seqs.Filter(Decompose(JavaTrim(Lower(s)), decompose), c => !isMark(c))
  }

  /** The one-pass reference: letters and digits are copied; a hyphen is
      written before a letter or digit when an earlier one was written
      (`started`) and something else came in between (`pending`). */
  function Reference(x: string, started: bool, pending: bool): string
    decreases |x|
  {
    if |x| == 0 then []
    else if IsLowerAlnum(x[0]) then
      (if started && pending then "-" else "") + [x[0]] + Reference(x[1..], true, false)
    else Reference(x[1..], started, true)
  }

  /** `generate`. Null or blank input gives the empty slug; otherwise the
      slug is the reference applied to the normalised text: well-formed,
      and holding exactly that text's letters and digits, in order. */
  function Generate(input: Option<string>, decompose: char -> string, isMark: char -> bool): (r: string)
    ensures WellFormed(r)
    ensures input.None? || JavaTrim(input.value) == [] ==> r == []
    ensures input.Some? && JavaTrim(input.value) != [] ==>
      && r == Reference(Normalize(input.value, decompose, isMark), false, false)
      && Seqs.Filter(r, IsLowerAlnum) == Seqs.Filter(Normalize(input.value, decompose, isMark), IsLowerAlnum)
  {
    if input.None? || JavaTrim(input.value) == [] then []
    else
      var x := Normalize(input.value, decompose, isMark);
      var spaced := ReplaceRuns(x, IsJavaRegexSpace, '-');
      var dashed := ReplaceRuns(spaced, NotLowerAlnum, '-');
      var collapsed := ReplaceRuns(dashed, IsHyphen, '-');
      PipelineIsReference(x);
      ReferenceShape(x, false, false);
      ReferenceLetters(x, false, false);
      StripTrailing(StripLeading(collapsed))
  }

  // ------------------------------------------------- pipeline == reference

  /** The run-by-run and the character-by-character readings agree. */
  lemma {:induction false} SqueezeIsReplaceRuns(s: string, p: char -> bool, r: char)
    ensures Squeeze(s, p, r, false) == ReplaceRuns(s, p, r)
    ensures Squeeze(s, p, r, true) == [r] + ReplaceRuns(TrimStart(s, p), p, r)
    decreases |s|
  {
    if |s| > 0 {
      SqueezeIsReplaceRuns(s[1..], p, r);
      if p(s[0]) {
        assert TrimStart(s, p) == TrimStart(s[1..], p);
      } else {
        assert TrimStart(s, p) == s;
        assert Squeeze(s, p, r, true) == [r] + ([s[0]] + Squeeze(s[1..], p, r, false));
      }
    }
  }

  lemma SqueezeCons(c: char, rest: string, p: char -> bool, r: char, pending: bool)
    ensures Squeeze([c] + rest, p, r, pending) ==
      if p(c) then Squeeze(rest, p, r, true)
      else (if pending then [r] else []) + [c] + Squeeze(rest, p, r, false)
  {
    assert ([c] + rest)[0] == c && ([c] + rest)[1..] == rest;
  }

  /** Two run replacements by the same character, where the second pass's
      runs include that character, are one replacement of the union of the
      runs. */
  lemma {:induction false} SqueezeTwice(x: string, p: char -> bool, q: char -> bool, u: char -> bool,
                                        r: char, pp: bool, pq: bool)
    requires q(r)
    requires forall c :: u(c) == (p(c) || q(c))
    ensures Squeeze(Squeeze(x, p, r, pp), q, r, pq) == Squeeze(x, u, r, pp || pq)
    decreases |x|
  {
    if |x| == 0 {
      if pp {
        SqueezeCons(r, [], q, r, pq);
        assert [r] + [] == [r];
      }
    } else if p(x[0]) {
      SqueezeTwice(x[1..], p, q, u, r, true, pq);
    } else {
      var rest := Squeeze(x[1..], p, r, false);
      var pend := pp || pq;
      assert Squeeze(x, p, r, pp) == (if pp then [r] else []) + ([x[0]] + rest);
      if pp {
        SqueezeCons(r, [x[0]] + rest, q, r, pq);
        assert [r] + ([x[0]] + rest) == (if pp then [r] else []) + ([x[0]] + rest);
      }
      SqueezeCons(x[0], rest, q, r, pend);
      if q(x[0]) {
        SqueezeTwice(x[1..], p, q, u, r, false, true);
      } else {
        SqueezeTwice(x[1..], p, q, u, r, false, false);
      }
    }
  }

  lemma StripTrailingAppend(a: string, b: string)
    ensures |b| > 0 ==> StripTrailing(a + b) == a + StripTrailing(b)
    ensures |b| == 0 ==> StripTrailing(a + b) == StripTrailing(a)
  {
    if |b| > 0 {
      assert (a + b)[..|a + b| - 1] == a + b[..|b| - 1];
    } else {
      assert a + b == a;
    }
  }

  /** Dropping the trailing hyphen of the squeezed text is the reference
      once a letter or digit has been written. */
  lemma {:induction false} StripTrailingSqueeze(x: string, pending: bool)
    ensures StripTrailing(Squeeze(x, NotLowerAlnum, '-', pending)) == Reference(x, true, pending)
    decreases |x|
  {
    if |x| > 0 {
      if IsLowerAlnum(x[0]) {
        var pre: string := if pending then "-" else "";
        var rest := Squeeze(x[1..], NotLowerAlnum, '-', false);
        StripTrailingSqueeze(x[1..], false);
        StripTrailingAppend(pre + [x[0]], rest);
        assert Squeeze(x, NotLowerAlnum, '-', pending) == (pre + [x[0]]) + rest;
      } else {
        StripTrailingSqueeze(x[1..], true);
      }
    }
  }

  /** Dropping both end hyphens of the squeezed text is the reference. */
  lemma {:induction false} StripBothSqueeze(x: string, pending: bool)
    ensures StripTrailing(StripLeading(Squeeze(x, NotLowerAlnum, '-', pending))) == Reference(x, false, pending)
    decreases |x|
  {
    if |x| > 0 {
      if IsLowerAlnum(x[0]) {
        var pre: string := if pending then "-" else "";
        var rest := Squeeze(x[1..], NotLowerAlnum, '-', false);
        assert Squeeze(x, NotLowerAlnum, '-', pending) == pre + ([x[0]] + rest);
        assert StripLeading(pre + ([x[0]] + rest)) == [x[0]] + rest;
        StripTrailingSqueeze(x[1..], false);
        StripTrailingAppend([x[0]], rest);
      } else {
        StripBothSqueeze(x[1..], true);
      }
    }
  }

  /** The five passes of `generate` compute the reference. */
  lemma PipelineIsReference(x: string)
    ensures StripTrailing(StripLeading(ReplaceRuns(ReplaceRuns(ReplaceRuns(
              x, IsJavaRegexSpace, '-'), NotLowerAlnum, '-'), IsHyphen, '-')))
         == Reference(x, false, false)
  {
    var spaced := ReplaceRuns(x, IsJavaRegexSpace, '-');
    var dashed := ReplaceRuns(spaced, NotLowerAlnum, '-');
    assert forall c :: IsJavaRegexSpace(c) ==> NotLowerAlnum(c);
    SqueezeIsReplaceRuns(x, IsJavaRegexSpace, '-');
    SqueezeIsReplaceRuns(spaced, NotLowerAlnum, '-');
    SqueezeIsReplaceRuns(dashed, IsHyphen, '-');
    SqueezeTwice(x, IsJavaRegexSpace, NotLowerAlnum, NotLowerAlnum, '-', false, false);
    SqueezeTwice(x, NotLowerAlnum, IsHyphen, NotLowerAlnum, '-', false, false);
    StripBothSqueeze(x, false);
  }

  // -------------------------------------------------- reference properties

  /** The reference writes only slug characters, ends on a letter or digit,
      puts a letter or digit after every hyphen, and begins with a letter or
      digit unless one was written before. */
  lemma {:induction false} ReferenceShape(x: string, started: bool, pending: bool)
    ensures var r := Reference(x, started, pending);
      && (forall i :: 0 <= i < |r| ==> IsSlugChar(r[i]))
      && (|r| > 0 ==> IsLowerAlnum(r[|r| - 1]))
      && (forall i :: 0 <= i < |r| - 1 && r[i] == '-' ==> IsLowerAlnum(r[i + 1]))
      && (|r| > 0 && !started ==> IsLowerAlnum(r[0]))
    decreases |x|
  {
    if |x| > 0 {
      if IsLowerAlnum(x[0]) {
        ReferenceShape(x[1..], true, false);
        var rest := Reference(x[1..], true, false);
        var pre: string := if started && pending then "-" else "";
        var r := pre + [x[0]] + rest;
        assert Reference(x, started, pending) == r;
        forall i | 0 <= i < |r| - 1 && r[i] == '-'
          ensures IsLowerAlnum(r[i + 1])
        {
          if i >= |pre| + 1 {
            assert r[i] == rest[i - |pre| - 1];
          }
        }
      } else {
        ReferenceShape(x[1..], started, true);
      }
    }
  }

  /** The reference keeps exactly the letters and digits of its input, in
      order. */
  lemma {:induction false} ReferenceLetters(x: string, started: bool, pending: bool)
    ensures Seqs.Filter(Reference(x, started, pending), IsLowerAlnum) == Seqs.Filter(x, IsLowerAlnum)
    decreases |x|
  {
    if |x| > 0 {
      assert x == [x[0]] + x[1..];
      Seqs.FilterCons(x[0], x[1..], IsLowerAlnum);
      if IsLowerAlnum(x[0]) {
        ReferenceLetters(x[1..], true, false);
        LettersAfterHyphen(x[0], Reference(x[1..], true, false), started && pending);
      } else {
        ReferenceLetters(x[1..], started, true);
      }
    }
  }

  /** An optional hyphen before a letter or digit is filtered away. */
  lemma LettersAfterHyphen(c: char, tail: string, hyphen: bool)
    requires IsLowerAlnum(c)
    ensures Seqs.Filter((if hyphen then "-" else "") + [c] + tail, IsLowerAlnum)
         == [c] + Seqs.Filter(tail, IsLowerAlnum)
  {
    var pre: string := if hyphen then "-" else "";
    var body := [c] + tail;
    assert pre + [c] + tail == pre + body;
    Seqs.FilterConcat(pre, body, IsLowerAlnum);
    Seqs.FilterCons(c, tail, IsLowerAlnum);
    assert Seqs.Filter(pre, IsLowerAlnum) == [];
  }

  /** A well-formed slug passes the reference unchanged. */
  lemma {:induction false} ReferenceFixesSlug(s: string, started: bool)
    requires forall i :: 0 <= i < |s| ==> IsSlugChar(s[i])
    requires |s| > 0 ==> s[|s| - 1] != '-'
    requires forall i :: 0 <= i < |s| - 1 && s[i] == '-' ==> s[i + 1] != '-'
    requires !started && |s| > 0 ==> s[0] != '-'
    ensures Reference(s, started, false) == s
    decreases |s|
  {
    if |s| > 0 {
      if IsLowerAlnum(s[0]) {
        ReferenceFixesSlug(s[1..], true);
        assert s == [s[0]] + s[1..];
      } else {
        assert s[1] != '-' && IsLowerAlnum(s[1]);
        ReferenceFixesSlug(s[2..], true);
        assert Reference(s, started, false) == Reference(s[1..], true, true);
        assert s[1..][0] == s[1] && s[1..][1..] == s[2..];
        assert s == "-" + [s[1]] + s[2..];
      }
    }
  }

  // ------------------------------------------------------------ idempotence

  lemma {:induction false} DecomposeKeepsSlug(s: string, decompose: char -> string)
    requires forall i :: 0 <= i < |s| ==> decompose(s[i]) == [s[i]]
    ensures Decompose(s, decompose) == s
    decreases |s|
  {
    if |s| > 0 {
      DecomposeKeepsSlug(s[1..], decompose);
      assert s == [s[0]] + s[1..];
    }
  }

  /** Normalisation leaves a slug alone. */
  lemma NormalizeKeepsSlug(g: string, decompose: char -> string, isMark: char -> bool)
    requires forall c :: IsSlugChar(c) ==> decompose(c) == [c] && !isMark(c)
    requires WellFormed(g)
    ensures JavaTrim(g) == g
    ensures Normalize(g, decompose, isMark) == g
  {
    assert Lower(g) == g;
    TrimKeepsKeptEnds(g, IsJavaTrimmed);
    DecomposeKeepsSlug(g, decompose);
    Seqs.FilterAll(g, c => !isMark(c));
  }

  /** A slug is its own slug, provided decomposition and mark stripping
      leave slug characters alone (as Unicode's do). */
  lemma GenerateIdempotent(input: Option<string>, decompose: char -> string, isMark: char -> bool)
    requires forall c :: IsSlugChar(c) ==> decompose(c) == [c] && !isMark(c)
    ensures Generate(Some(Generate(input, decompose, isMark)), decompose, isMark)
         == Generate(input, decompose, isMark)
  {
    var g := Generate(input, decompose, isMark);
    NormalizeKeepsSlug(g, decompose, isMark);
    if |g| > 0 {
      ReferenceFixesSlug(g, false);
    }
  }
}
