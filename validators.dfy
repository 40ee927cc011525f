/** The `match` patterns of the schemas, as string predicates:
    `^[a-z0-9-]+$` for category ids, `^https?:\/\/.*` for URLs and
    `^\S+@\S+\.\S+$` for e-mail addresses. */
module Validators {
  import opened Common
  import opened Text

  predicate SlugChar(c: char) {
    ('a' <= c <= 'z') || ('0' <= c <= '9') || c == '-'
  }

  /** `^[a-z0-9-]+$`: one or more lower-case letters, digits or hyphens. */
  predicate IsSlug(s: string) {
    |s| >= 1 && forall i :: 0 <= i < |s| ==> SlugChar(s[i])
  }

  /** A slug holds no white space, so the trim setter leaves it alone. */
  lemma SlugIsTrimmed(s: string)
    requires IsSlug(s)
    ensures NoSpace(s) && Trim(s) == s
  {
    forall i | 0 <= i < |s| ensures !IsSpace(s[i]) {
      SlugCharIsNotSpace(s[i]);
    }
    TrimNoSpace(s);
  }

  lemma SlugCharIsNotSpace(c: char)
    requires SlugChar(c)
    ensures !IsSpace(c)
  {
  }

  /** `^https?:\/\/.*`: the string starts with `http://` or `https://`
      (`.*` also matches the empty rest). */
  predicate IsHttpUrl(s: string) {
    StartsWith(s, "http://") || StartsWith(s, "https://")
  }

  /** The reading of `^\S+@\S+\.\S+$` as a regular expression: the string
      has no white space and splits as a + "@" + b + "." + c with a, b, c
      non-empty (each may itself hold '@' or '.'). */
  ghost predicate EmailShape(s: string) {
    NoSpace(s) &&
    exists i, j :: 1 <= i && i + 2 <= j <= |s| - 2 && s[i] == '@' && s[j] == '.'
  }

  /** The first index at or after `from` that holds `c`. */
  function FindFrom(s: string, c: char, from: nat): (r: Option<nat>)
    ensures r.Some? ==> from <= r.value < |s| && s[r.value] == c
    ensures r.Some? ==> forall k :: from <= k < r.value ==> s[k] != c
    ensures r.None? ==> forall k :: from <= k < |s| ==> s[k] != c
    decreases |s| - from
  {
    if from >= |s| then None
    else if s[from] == c then Some(from)
    else FindFrom(s, c, from + 1)
  }

  /** The last index below `upto` that holds `c`. */
  function FindLast(s: string, c: char, upto: nat): (r: Option<nat>)
    requires upto <= |s|
    ensures r.Some? ==> r.value < upto && s[r.value] == c
    ensures r.Some? ==> forall k :: r.value < k < upto ==> s[k] != c
    ensures r.None? ==> forall k :: 0 <= k < upto ==> s[k] != c
  {
    if upto == 0 then None
    else if s[upto - 1] == c then Some(upto - 1)
    else FindLast(s, c, upto - 1)
  }

  /** The e-mail check: the earliest '@' that has something before it and the
      last '.' that has something after it leave room for a non-empty middle. */
  predicate IsEmail(s: string) {
    && NoSpace(s)
    && |s| >= 1
    && var at := FindFrom(s, '@', 1);
    && var dot := FindLast(s, '.', |s| - 1);
    && at.Some? && dot.Some?
    && at.value + 2 <= dot.value
  }

  /** The check accepts exactly the strings the regular expression matches. */
  lemma EmailCheckMatchesPattern(s: string)
    ensures IsEmail(s) <==> EmailShape(s)
  {
    if |s| == 0 {
      return;
    }
    var at := FindFrom(s, '@', 1);
    var dot := FindLast(s, '.', |s| - 1);
    if IsEmail(s) {
      assert 1 <= at.value && at.value + 2 <= dot.value <= |s| - 2 && s[at.value] == '@' && s[dot.value] == '.';
    }
    if EmailShape(s) {
      var i, j :| 1 <= i && i + 2 <= j <= |s| - 2 && s[i] == '@' && s[j] == '.';
      assert at.Some? && at.value <= i;
      assert dot.Some? && j <= dot.value;
    }
  }
}
