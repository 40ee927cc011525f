/** String operations the server relies on: JavaScript's whitespace class
    and `String.prototype.trim`, lower-casing, `split` on a single
    character, prefix tests, case-insensitive substring search, and decimal
    numerals. */
module Text {
  import opened Common

  /** The characters JavaScript's `\s` and `trim` treat as white space. */
  predicate IsSpace(c: char) {
    || c == ' ' || c == '\t' || c == '\n' || c == '\r'
    || c == '\U{000B}' || c == '\U{000C}' || c == '\U{00A0}' || c == '\U{1680}'
    || ('\U{2000}' <= c <= '\U{200A}')
    || c == '\U{2028}' || c == '\U{2029}' || c == '\U{202F}' || c == '\U{205F}'
    || c == '\U{3000}' || c == '\U{FEFF}'
  }

  predicate NoSpace(s: string) {
    forall i :: 0 <= i < |s| ==> !IsSpace(s[i])
  }

  /** Drops leading white space: the result does not start with white
      space. */
  function TrimStart(s: string): (r: string)
    ensures |r| <= |s|
    ensures r == [] || !IsSpace(r[0])
  {
    if s != [] && IsSpace(s[0]) then TrimStart(s[1..]) else s
  }

  /** Drops trailing white space: the result does not end with white space
      and starts where the input does. */
  function TrimEnd(s: string): (r: string)
    ensures |r| <= |s|
    ensures r == [] || (!IsSpace(r[|r| - 1]) && r[0] == s[0])
  {
    if s != [] && IsSpace(s[|s| - 1]) then TrimEnd(s[..|s| - 1]) else s
  }

  /** `TrimStart` keeps a suffix and drops only white space. */
  lemma {:induction false} TrimStartDropsSpace(s: string)
    ensures var r := TrimStart(s);
      r == s[|s| - |r|..] && forall i :: 0 <= i < |s| - |r| ==> IsSpace(s[i])
  {
    if s != [] && IsSpace(s[0]) {
      TrimStartDropsSpace(s[1..]);
      var r := TrimStart(s);
      assert r == s[1..][|s| - 1 - |r|..];
      forall i | 0 <= i < |s| - |r| ensures IsSpace(s[i]) {
        if i > 0 {
          assert s[i] == s[1..][i - 1];
        }
      }
    }
  }

  /** `TrimEnd` keeps a prefix and drops only white space. */
  lemma {:induction false} TrimEndDropsSpace(s: string)
    ensures var r := TrimEnd(s);
      r == s[..|r|] && forall i :: |r| <= i < |s| ==> IsSpace(s[i])
  {
    if s != [] && IsSpace(s[|s| - 1]) {
      var t := s[..|s| - 1];
      TrimEndDropsSpace(t);
      var r := TrimEnd(s);
      assert r == t[..|r|];
      forall i | |r| <= i < |s| ensures IsSpace(s[i]) {
        if i < |s| - 1 {
          assert s[i] == t[i];
        }
      }
    }
  }

  /** The number of white-space characters `trim` drops at the front. */
  function LeadingSpace(s: string): nat {
    |s| - |TrimStart(s)|
  }

  /** A prefix of a suffix is a slice. */
  lemma SliceOfSuffix(s: string, a: nat, n: nat)
    requires a + n <= |s|
    ensures s[a..][..n] == s[a..a + n]
  {
  }

  /** White space at the end of a suffix is white space at the end of the
      whole string. */
  lemma SpaceAfterSlice(s: string, a: nat, n: nat)
    requires a + n <= |s|
    requires forall j :: n <= j < |s| - a ==> IsSpace(s[a..][j])
    ensures forall i :: a + n <= i < |s| ==> IsSpace(s[i])
  {
    forall i | a + n <= i < |s| ensures IsSpace(s[i]) {
      assert s[a..][i - a] == s[i];
    }
  }

  /** Trimming keeps one contiguous piece of the input and drops only white
      space before and after it. */
  lemma {:induction false} TrimDropsSpace(s: string)
    ensures var a, r := LeadingSpace(s), Trim(s);
      && a + |r| <= |s| && r == s[a..a + |r|]
      && (forall i :: 0 <= i < a ==> IsSpace(s[i]))
      && (forall i :: a + |r| <= i < |s| ==> IsSpace(s[i]))
  {
    TrimStartDropsSpace(s);
    var a := LeadingSpace(s);
    var t := TrimStart(s);
    assert t == s[a..];
    TrimEndDropsSpace(t);
    var r := TrimEnd(t);
    SliceOfSuffix(s, a, |r|);
    SpaceAfterSlice(s, a, |r|);
  }

  /** A string with no white space at either end: what the trim setter
      leaves behind. */
  predicate Trimmed(s: string) {
    s == [] || (!IsSpace(s[0]) && !IsSpace(s[|s| - 1]))
  }

  /** `String.prototype.trim`, the `trim: true` setter of every schema. */
  function Trim(s: string): (r: string)
    ensures |r| <= |s|
    ensures Trimmed(r)
  {
    TrimEnd(TrimStart(s))
  }

  /** Trimming leaves a trimmed string alone. */
  lemma TrimmedIsFixed(s: string)
    requires Trimmed(s)
    ensures Trim(s) == s
  {
    assert TrimStart(s) == s;
  }

  /** Trimming twice is trimming once. */
  lemma TrimIdempotent(s: string)
    ensures Trim(Trim(s)) == Trim(s)
  {
    TrimmedIsFixed(Trim(s));
  }

  /** A string that holds no white space at all is its own trim. */
  lemma TrimNoSpace(s: string)
    requires NoSpace(s)
    ensures Trim(s) == s
  {
    TrimmedIsFixed(s);
  }

  /** The capitals that lower-casing folds here: A to Z and the Latin-1
      capitals U+00C0 to U+00DE except the sign U+00D7, which hold every
      accented capital of Portuguese. */
  predicate IsUpper(c: char) {
    ('A' <= c <= 'Z') || ('\U{00C0}' <= c <= '\U{00DE}' && c != '\U{00D7}')
  }

  /** `toLowerCase` on one character: a folded capital becomes its small
      letter, 32 code points on; any other character is kept. */
  function LowerChar(c: char): (r: char)
    ensures !IsUpper(r)
    ensures !IsUpper(c) ==> r == c
  {
    if IsUpper(c) then (c as int + 32) as char else c
  }

  function Lower(s: string): (r: string)
    ensures |r| == |s|
    ensures forall i :: 0 <= i < |s| ==> r[i] == LowerChar(s[i])
  {
    seq(|s|, i requires 0 <= i < |s| => LowerChar(s[i]))
  }

  /** Lower-casing leaves no folded capital, and does not move white
      space, '@' or '.'. */
  lemma LowerShape(s: string)
    ensures forall i :: 0 <= i < |s| ==> !IsUpper(Lower(s)[i])
    ensures forall i :: 0 <= i < |s| ==> (IsSpace(Lower(s)[i]) <==> IsSpace(s[i]))
    ensures forall i :: 0 <= i < |s| ==> (Lower(s)[i] == '@' <==> s[i] == '@')
    ensures forall i :: 0 <= i < |s| ==> (Lower(s)[i] == '.' <==> s[i] == '.')
  {
  }

  predicate StartsWith(s: string, prefix: string) {
    |prefix| <= |s| && s[..|prefix|] == prefix
  }

  /** `$regex` with option `i` for a search string without regular
      expression metacharacters: a case-insensitive substring test. */
  predicate ContainsIgnoringCase(haystack: string, needle: string) {
    exists i :: 0 <= i <= |haystack| - |needle| && MatchesAt(haystack, needle, i)
  }

  predicate MatchesAt(haystack: string, needle: string, i: int)
    requires 0 <= i <= |haystack| - |needle|
  {
    Lower(haystack)[i..i + |needle|] == Lower(needle)
  }

  /** Lower-casing twice is lower-casing once. */
  lemma LowerIdempotent(s: string)
    ensures Lower(Lower(s)) == Lower(s)
  {
    forall i | 0 <= i < |s| ensures LowerChar(LowerChar(s[i])) == LowerChar(s[i]) {
    }
  }

  /** Accented capitals fold too: "MÚSICA" lower-cases to "música", so a
      search for "música" finds it. */
  lemma AccentsFold()
    ensures Lower("JOSÉ") == "josé"
    ensures Lower("MÚSICA") == "música"
    ensures ContainsIgnoringCase("MÚSICA", "música")
  {
    assert Lower("JOSÉ") == "josé";
    assert Lower("MÚSICA") == "música";
    assert Lower("música") == "música";
    assert MatchesAt("MÚSICA", "música", 0);
  }

  /** The case of the search string does not matter either: searching for
      a string and for its lower-case form finds the same matches. */
  lemma ContainsIgnoresNeedleCase(haystack: string, needle: string)
    ensures ContainsIgnoringCase(haystack, needle) <==> ContainsIgnoringCase(haystack, Lower(needle))
  {
    LowerIdempotent(needle);
    if ContainsIgnoringCase(haystack, needle) {
      var i :| 0 <= i <= |haystack| - |needle| && MatchesAt(haystack, needle, i);
      assert MatchesAt(haystack, Lower(needle), i);
    }
    if ContainsIgnoringCase(haystack, Lower(needle)) {
      var i :| 0 <= i <= |haystack| - |Lower(needle)| && MatchesAt(haystack, Lower(needle), i);
      assert MatchesAt(haystack, needle, i);
    }
  }

  /** The parts of a string cut at a separator, joined back with it. */
  function Join(parts: seq<string>, sep: char): string
    requires |parts| >= 1
  {
    if |parts| == 1 then parts[0] else parts[0] + [sep] + Join(parts[1..], sep)
  }

  /** `String.prototype.split` on a one-character separator: at least one
      part, no part holds the separator, and joining the parts back gives
      the string. */
  function Split(s: string, sep: char): (parts: seq<string>)
    ensures |parts| >= 1
    ensures forall i :: 0 <= i < |parts| ==> sep !in parts[i]
    ensures Join(parts, sep) == s
  {
    if s == [] then [""]
    else if s[0] == sep then
      var rest := Split(s[1..], sep);
      assert [sep] + Join(rest, sep) == s;
      [""] + rest
    else
      var rest := Split(s[1..], sep);
      var parts := [[s[0]] + rest[0]] + rest[1..];
      assert parts[1..] == rest[1..];
      assert Join(parts, sep) == [s[0]] + Join(rest, sep);
      parts
  }

  /** Splitting is the inverse of joining parts that do not hold the
      separator. */
  lemma {:induction false} SplitJoin(parts: seq<string>, sep: char)
    requires |parts| >= 1
    requires forall i :: 0 <= i < |parts| ==> sep !in parts[i]
    ensures Split(Join(parts, sep), sep) == parts
  {
    if |parts| == 1 {
      SplitNoSep(parts[0], sep);
    } else {
      SplitJoin(parts[1..], sep);
      SplitAfterPart(parts[0], Join(parts[1..], sep), sep);
    }
  }

  lemma {:induction false} SplitNoSep(s: string, sep: char)
    requires sep !in s
    ensures Split(s, sep) == [s]
  {
    if s != [] {
      SplitNoSep(s[1..], sep);
    }
  }

  /** A separator-free head followed by the separator starts a new part. */
  lemma {:induction false} SplitAfterPart(head: string, tail: string, sep: char)
    requires sep !in head
    ensures Split(head + [sep] + tail, sep) == [head] + Split(tail, sep)
  {
    if head != [] {
      var s := head + [sep] + tail;
      assert s[0] == head[0] && head[0] != sep;
      assert s[1..] == head[1..] + [sep] + tail;
      SplitAfterPart(head[1..], tail, sep);
      assert [head[0]] + head[1..] == head;
    } else {
      assert (head + [sep] + tail)[1..] == tail;
    }
  }

  /** The first part of a split is the prefix before the first separator
      (or the whole string), and the rest of the string splits into the
      remaining parts. */
  lemma FirstPart(s: string, sep: char)
    ensures var parts := Split(s, sep);
      && StartsWith(s, parts[0])
      && (|parts| == 1 <==> |parts[0]| == |s|)
      && (|parts| > 1 ==> s[|parts[0]|] == sep && Split(s[|parts[0]| + 1..], sep) == parts[1..])
  {
    var parts := Split(s, sep);
    if |parts| == 1 {
      assert s == parts[0];
    } else {
      var rest := Join(parts[1..], sep);
      assert s == parts[0] + [sep] + rest;
      assert s[..|parts[0]|] == parts[0];
      assert s[|parts[0]| + 1..] == rest;
      assert forall i :: 0 <= i < |parts[1..]| ==> sep !in parts[1..][i];
      SplitJoin(parts[1..], sep);
    }
  }

  /** A separator-free word is the first part exactly when the string
      starts with it and it is followed by the separator or the end. */
  lemma FirstPartIs(s: string, sep: char, w: string)
    requires sep !in w
    ensures Split(s, sep)[0] == w <==> StartsWith(s, w) && (|s| == |w| || s[|w|] == sep)
  {
    var parts := Split(s, sep);
    var p := parts[0];
    FirstPart(s, sep);
    assert sep !in p;
    assert |p| < |s| ==> s[|p|] == sep;
    forall i | 0 <= i < |p| ensures s[i] != sep {
      assert s[i] == p[i];
    }
    if StartsWith(s, w) && (|s| == |w| || s[|w|] == sep) {
      forall i | 0 <= i < |w| ensures s[i] != sep {
        assert s[i] == w[i];
      }
      assert |p| == |w|;
      assert p == s[..|p|] == w;
    }
  }

  predicate IsDigit(c: char) {
    '0' <= c <= '9'
  }

  predicate AllDigits(s: string) {
    forall i :: 0 <= i < |s| ==> IsDigit(s[i])
  }

  function Digit(d: nat): char
    requires d < 10
  {
    ('0' as int + d) as char
  }

  /** The decimal numeral of a natural number. */
  function Show(n: nat): (r: string)
    ensures |r| >= 1 && AllDigits(r)
  {
    if n < 10 then [Digit(n)] else Show(n / 10) + [Digit(n % 10)]
  }

  function Value(s: string): nat
    requires AllDigits(s)
  {
    if s == [] then 0 else Value(s[..|s| - 1]) * 10 + (s[|s| - 1] as int - '0' as int)
  }

  /** Reads a decimal numeral; fails on an empty string or a non-digit. */
  function ParseNat(s: string): (r: Option<nat>)
    ensures r.Some? <==> |s| >= 1 && AllDigits(s)
  {
    if |s| >= 1 && AllDigits(s) then Some(Value(s)) else None
  }

  /** Reading back a numeral gives the number that was shown. */
  lemma {:induction false} ParseShow(n: nat)
    ensures ParseNat(Show(n)) == Some(n)
  {
    ValueShow(n);
  }

  lemma {:induction false} ValueShow(n: nat)
    ensures Value(Show(n)) == n
  {
    if n >= 10 {
      ValueShow(n / 10);
      var s := Show(n / 10) + [Digit(n % 10)];
      assert s[..|s| - 1] == Show(n / 10);
    }
  }
}
