/**
 * The character classes the two filters depend on, restricted to ASCII:
 * Python's `str.isspace()` (used by `str.strip()`), the regular-expression
 * word characters behind `\b`, and the case folding behind `re.IGNORECASE`.
 */
module Ascii {

  /** Python's `str.isspace()` on the ASCII range: tab, line feed, vertical tab,
      form feed, carriage return, the four separators 0x1C-0x1F, and space. */
  predicate IsSpace(c: char) {
    (9 <= c as int <= 13) || (28 <= c as int <= 32)
  }

  /** A word character of `\b`: an ASCII letter, an ASCII digit or `_`. */
  predicate IsWordChar(c: char) {
    ('a' <= c <= 'z') || ('A' <= c <= 'Z') || ('0' <= c <= '9') || c == '_'
  }

  const Capitals := "ABCDEFGHIJKLMNOPQRSTUVWXYZ"
  const Smalls := "abcdefghijklmnopqrstuvwxyz"

  /** ASCII lower-casing: a capital becomes the small letter at the same place in the alphabet; every other character is left alone. */
  function Lower(c: char): (r: char)
    ensures 'A' <= c <= 'Z' ==> r == Smalls[c as int - 'A' as int]
    ensures !('A' <= c <= 'Z') ==> r == c
  {
    if 'A' <= c <= 'Z' then (c as int + 32) as char else c
  }

  /** ASCII upper-casing: a small letter becomes the capital at the same place in the alphabet; every other character is left alone. */
  function Upper(c: char): (r: char)
    ensures 'a' <= c <= 'z' ==> r == Capitals[c as int - 'a' as int]
    ensures !('a' <= c <= 'z') ==> r == c
  {
    if 'a' <= c <= 'z' then (c as int - 32) as char else c
  }

  /** Two characters are equal ignoring case when they fold to the same one. */
  predicate SameIgnoringCase(a: char, b: char) {
    Lower(a) == Lower(b)
  }

  /** Case changes neither the folded character nor the word-character class. */
  lemma CaseChangeKeepsClass(c: char)
    ensures Lower(Upper(c)) == Lower(c) && Lower(Lower(c)) == Lower(c)
    ensures IsWordChar(Upper(c)) == IsWordChar(c) && IsWordChar(Lower(c)) == IsWordChar(c)
  {
  }

  /** Characters equal ignoring case are both word characters or both not. */
  lemma SameIgnoringCaseKeepsClass(a: char, b: char)
    requires SameIgnoringCase(a, b)
    ensures IsWordChar(a) == IsWordChar(b)
  {
  }

  /** The text with every ASCII letter upper-cased. */
  function UpperText(s: string): (r: string)
    ensures |r| == |s|
    ensures forall j :: 0 <= j < |s| ==> SameIgnoringCase(r[j], s[j])
  {
    seq(|s|, j requires 0 <= j < |s| => Upper(s[j]))
  }

  /** The text with every ASCII letter lower-cased. */
  function LowerText(s: string): (r: string)
    ensures |r| == |s|
    ensures forall j :: 0 <= j < |s| ==> SameIgnoringCase(r[j], s[j])
  {
    seq(|s|, j requires 0 <= j < |s| => Lower(s[j]))
  }

  predicate AllSpace(s: string) {
    forall j :: 0 <= j < |s| ==> IsSpace(s[j])
  }

  /** `s.lstrip()`: drops the leading white space. */
  function StripStart(s: string): string {
    if s != [] && IsSpace(s[0]) then StripStart(s[1..]) else s
  }

  /** `lstrip()` keeps a suffix, cuts only white space, and leaves no white space in front. */
  lemma {:induction false} StripStartSpec(s: string)
    ensures var r := StripStart(s);
      |r| <= |s| && r == s[|s| - |r|..] && AllSpace(s[..|s| - |r|]) && (r != [] ==> !IsSpace(r[0]))
  {
    if s != [] && IsSpace(s[0]) {
      StripStartSpec(s[1..]);
      var r := StripStart(s);
      assert s[..|s| - |r|] == [s[0]] + s[1..][..|s| - 1 - |r|];
    }
  }

  /** `s.rstrip()`: drops the trailing white space. */
  function StripEnd(s: string): string {
    if s != [] && IsSpace(s[|s| - 1]) then StripEnd(s[..|s| - 1]) else s
  }

  /** `rstrip()` keeps a prefix, cuts only white space, and leaves no white space at the end. */
  lemma {:induction false} StripEndSpec(s: string)
    ensures var r := StripEnd(s);
      |r| <= |s| && r == s[..|r|] && AllSpace(s[|r|..]) && (r != [] ==> !IsSpace(r[|r| - 1]))
  {
    if s != [] && IsSpace(s[|s| - 1]) {
      var n := |s| - 1;
      StripEndSpec(s[..n]);
      var r := StripEnd(s);
      assert s[|r|..] == s[..n][|r|..] + [s[n]];
    }
  }

  /** `s.strip()`: the text without its surrounding white space. */
  function Strip(s: string): string {
    StripEnd(StripStart(s))
  }

  /** The stripped text is no longer than the original, and starts and ends with something other than white space. */
  lemma StripSpec(s: string)
    ensures |Strip(s)| <= |s|
    ensures Strip(s) != [] ==> !IsSpace(Strip(s)[0]) && !IsSpace(Strip(s)[|Strip(s)| - 1])
  {
    StripStartSpec(s);
    StripEndSpec(StripStart(s));
  }

  /** What `strip()` cuts away is white space, on either side of a contiguous slice. */
  lemma StripIsTrim(s: string)
    ensures exists a, b :: 0 <= a <= b <= |s| && Strip(s) == s[a..b] && AllSpace(s[..a]) && AllSpace(s[b..])
  {
    var t := StripStart(s);
    var u := StripEnd(t);
    StripStartSpec(s);
    StripEndSpec(t);
    assert u == s[|s| - |t|..|s| - |t| + |u|];
    assert s[|s| - |t| + |u|..] == t[|u|..];
  }

  /** `not s.strip()` holds exactly when `s` is all white space. */
  lemma {:induction false} StripEmptyIffBlank(s: string)
    ensures Strip(s) == [] <==> AllSpace(s)
  {
    var r := Strip(s);
    StripIsTrim(s);
    if r == [] {
      var a, b :| 0 <= a <= b <= |s| && r == s[a..b] && AllSpace(s[..a]) && AllSpace(s[b..]);
      assert a == b;
      forall j | 0 <= j < |s| ensures IsSpace(s[j]) {
        if j < a { assert s[..a][j] == s[j]; } else { assert s[b..][j - b] == s[j]; }
      }
    } else {
      StripSpec(s);
      var a, b :| 0 <= a <= b <= |s| && r == s[a..b] && AllSpace(s[..a]) && AllSpace(s[b..]);
      assert s[a] == r[0];
    }
  }

  /** Stripping twice is stripping once. */
  lemma StripIdempotent(s: string)
    ensures Strip(Strip(s)) == Strip(s)
  {
    var r := Strip(s);
    StripSpec(s);
    assert StripStart(r) == r;
    assert StripEnd(r) == r;
  }

  /** A text with no surrounding white space is its own strip. */
  lemma StripOfTrimmed(s: string)
    requires s != [] ==> !IsSpace(s[0]) && !IsSpace(s[|s| - 1])
    ensures Strip(s) == s
  {
  }

  /** White space added around a text disappears under `strip()`. */
  lemma {:induction false} StripPadded(pre: string, s: string, post: string)
    requires AllSpace(pre) && AllSpace(post)
    requires s != [] ==> !IsSpace(s[0]) && !IsSpace(s[|s| - 1])
    ensures Strip(pre + s + post) == s
  {
    if s == [] {
      assert pre + s + post == pre + post;
      StripEmptyIffBlank(pre + post);
    } else {
      StripStartPadded(pre, s + post);
      assert pre + s + post == pre + (s + post);
      StripEndPadded(s, post);
    }
  }

  /** A non-empty text with no white space at either end. */
  predicate Trimmed(s: string) {
    s != [] && !IsSpace(s[0]) && !IsSpace(s[|s| - 1])
  }

  /** `s` is one of the texts of `names` with nothing but white space around it. */
  ghost predicate PaddedNameIn(s: string, names: set<string>) {
    exists a, b :: 0 <= a <= b <= |s| && AllSpace(s[..a]) && AllSpace(s[b..]) && s[a..b] in names
  }

  /**
   * Against a set of trimmed names, `s.strip() in names` holds exactly when
   * `s` is such a name padded with white space.
   */
  lemma StripInIffPadded(s: string, names: set<string>)
    requires forall t :: t in names ==> Trimmed(t)
    ensures Strip(s) in names <==> PaddedNameIn(s, names)
  {
    if Strip(s) in names {
      StrippedIsPadded(s, names);
    }
    if PaddedNameIn(s, names) {
      PaddedIsStripped(s, names);
    }
  }

  lemma StrippedIsPadded(s: string, names: set<string>)
    requires Strip(s) in names
    ensures PaddedNameIn(s, names)
  {
    StripIsTrim(s);
  }

  lemma PaddedIsStripped(s: string, names: set<string>)
    requires forall t :: t in names ==> Trimmed(t)
    requires PaddedNameIn(s, names)
    ensures Strip(s) in names
  {
    var a, b :| 0 <= a <= b <= |s| && AllSpace(s[..a]) && AllSpace(s[b..]) && s[a..b] in names;
    var t := s[a..b];
    assert Trimmed(t);
    SliceSplit(s, a, b);
    StripPadded(s[..a], t, s[b..]);
  }

  lemma SliceSplit(s: string, a: nat, b: nat)
    requires a <= b <= |s|
    ensures s == s[..a] + s[a..b] + s[b..]
  {
  }

  lemma {:induction false} StripStartPadded(pre: string, s: string)
    requires AllSpace(pre)
    requires s != [] ==> !IsSpace(s[0])
    ensures StripStart(pre + s) == s
  {
    if pre != [] {
      assert (pre + s)[1..] == pre[1..] + s;
      StripStartPadded(pre[1..], s);
    } else {
      assert pre + s == s;
    }
  }

  lemma {:induction false} StripEndPadded(s: string, post: string)
    requires AllSpace(post)
    requires s != [] ==> !IsSpace(s[|s| - 1])
    ensures StripEnd(s + post) == s
  {
    if post != [] {
      var n := |post| - 1;
      assert (s + post)[..|s + post| - 1] == s + post[..n];
      StripEndPadded(s, post[..n]);
    } else {
      assert s + post == s;
    }
  }
}
