/** The Bean Validation constraints the entities and DTOs carry, with the
    meaning the reference implementation (Hibernate Validator) gives them. */
module BeanValidation {
  import opened Wrappers
  import opened Text

  /** `@NotBlank`: not null, and something is left after `String.trim()`. */
  predicate NotBlank(s: Option<string>) {
    s.Some? && JavaTrim(s.value) != []
  }

  /** `@Size(min, max)`: null is valid; otherwise `String.length()`, which
      counts UTF-16 code units, is in range. */
  predicate Size(s: Option<string>, min: nat, max: nat) {
    s.None? || min <= Utf16Length(s.value) <= max
  }

  /** `@NotNull`. */
  predicate NotNull<T>(x: Option<T>) {
    x.Some?
  }

  /** `@Size` counts code units, not characters: one character outside the
      Basic Multilingual Plane is already too long for a maximum of 1. */
  lemma SizeCountsCodeUnits(s: Option<string>)
    requires s == Some("\U{1F600}")
    ensures !Size(s, 0, 1) && Size(s, 2, 2)
  {
    assert IsSupplementary(s.value[0]);
  }

  /** The length JPA gives a String column whose `@Column` declares none:
      such a column is a `varchar(255)`. */
  const DefaultColumnLength: nat := 255

  /** A column `length` limit, counted in characters: null always fits. */
  predicate FitsColumn(s: Option<string>, length: nat) {
    s.None? || |s.value| <= length
  }

  /** `@NotBlank` holds exactly when the value is present and has a
      character above U+0020 somewhere. */
  lemma NotBlankIffVisibleChar(s: Option<string>)
    ensures NotBlank(s) <==> s.Some? && exists i :: 0 <= i < |s.value| && !IsJavaTrimmed(s.value[i])
  {
    if s.Some? {
      var t := JavaTrim(s.value);
      var i :| CutAt(s.value, t, i, IsJavaTrimmed);
      if t != [] {
        assert s.value[i] == t[0];
      }
    }
  }

  /** A non-blank value is not empty: `@NotBlank` is stronger than `@NotEmpty`. */
  lemma NotBlankNonEmpty(s: Option<string>)
    requires NotBlank(s)
    ensures |s.value| > 0
  {
    NotBlankIffVisibleChar(s);
  }
}
