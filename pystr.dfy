/**
  The Python `str` operations both scripts rely on, restricted to what they do
  on ASCII text: `isspace`/`strip`, `title`, single-character `replace`,
  substring removal with `replace(pat, "")`, and `endswith`.
 */
module PyStr {

  // ---------------------------------------------------------------------------
  // Character classes
  // ---------------------------------------------------------------------------

  /** `str.isspace()` for one character: the set `str.strip()` removes. */
  predicate IsSpace(c: char) {
    var n := c as int;
    (9 <= n <= 13) || (28 <= n <= 32) || n == 0x85 || n == 0xA0 || n == 0x1680
    || (0x2000 <= n <= 0x200A) || n == 0x2028 || n == 0x2029 || n == 0x202F
    || n == 0x205F || n == 0x3000
  }

  predicate IsDigit(c: char) { '0' <= c <= '9' }

  predicate IsLower(c: char) { 'a' <= c <= 'z' }

  predicate IsUpper(c: char) { 'A' <= c <= 'Z' }

  /** The cased characters of ASCII. */
  predicate IsLetter(c: char) { IsLower(c) || IsUpper(c) }

  function Upper(c: char): (u: char)
    ensures IsLetter(u) == IsLetter(c) && !IsLower(u)
    ensures !IsLetter(c) ==> u == c
  {
    if IsLower(c) then (c as int - 32) as char else c
  }

  function Lower(c: char): (l: char)
    ensures IsLetter(l) == IsLetter(c) && !IsUpper(l)
    ensures !IsLetter(c) ==> l == c
  {
    if IsUpper(c) then (c as int + 32) as char else c
  }

  lemma CaseMapsAbsorb(c: char)
    ensures Upper(Upper(c)) == Upper(c) && Lower(Lower(c)) == Lower(c)
  {
  }

  // ---------------------------------------------------------------------------
  // strip()
  // ---------------------------------------------------------------------------

  /** Number of whitespace characters at the start of `s`. */
  function LeadingSpaces(s: string): (n: nat)
    ensures n <= |s| && (forall k :: 0 <= k < n ==> IsSpace(s[k]))
    ensures n < |s| ==> !IsSpace(s[n])
  {
    if s != [] && IsSpace(s[0]) then 1 + LeadingSpaces(s[1..]) else 0
  }

  /** Number of whitespace characters at the end of `s`. */
  function TrailingSpaces(s: string): (n: nat)
    ensures n <= |s| && (forall k :: |s| - n <= k < |s| ==> IsSpace(s[k]))
    ensures n < |s| ==> !IsSpace(s[|s| - 1 - n])
  {
    if s != [] && IsSpace(s[|s| - 1]) then 1 + TrailingSpaces(s[..|s| - 1]) else 0
  }

  /** `r` is the slice of `s` at `a`, and everything of `s` outside it is whitespace. */
  predicate StripsTo(s: string, a: int, r: string) {
    && 0 <= a <= |s| - |r| && r == s[a..a + |r|]
    && (forall k :: 0 <= k < a ==> IsSpace(s[k]))
    && (forall k :: a + |r| <= k < |s| ==> IsSpace(s[k]))
  }

  /** The whitespace at the end of `s[a..]` is the whitespace at the end of `s`. */
  lemma TrailingOfRest(s: string, a: nat)
    requires a <= |s|
    ensures var b := TrailingSpaces(s[a..]);
            && b <= |s| - a
            && (forall k :: |s| - b <= k < |s| ==> IsSpace(s[k]))
            && (b < |s| - a ==> !IsSpace(s[|s| - 1 - b]))
  {
    var rest := s[a..];
    var b := TrailingSpaces(rest);
    forall k | |s| - b <= k < |s|
      ensures IsSpace(s[k])
    {
      assert s[k] == rest[k - a];
    }
    if b < |rest| {
      assert s[|s| - 1 - b] == rest[|rest| - 1 - b];
    }
  }

  /**
    `str.strip()`: `s` without its leading and trailing whitespace. The result
    is a slice of `s` that neither starts nor ends with whitespace, and what
    was cut off on either side is all whitespace.
   */
  function Strip(s: string): (r: string)
    ensures r == [] || (!IsSpace(r[0]) && !IsSpace(r[|r| - 1]))
    ensures exists a :: StripsTo(s, a, r)
  {
    var a := LeadingSpaces(s);
    TrailingOfRest(s, a);
    var r := s[a..|s| - TrailingSpaces(s[a..])];
    assert r == s[a..a + |r|];
    assert StripsTo(s, a, r);
    r
  }

  /** Stripping a string that neither starts nor ends with whitespace changes nothing. */
  lemma StripOfTrimmed(s: string)
    requires s == [] || (!IsSpace(s[0]) && !IsSpace(s[|s| - 1]))
    ensures Strip(s) == s
  {
    assert LeadingSpaces(s) == 0;
    assert s[0..] == s;
    assert TrailingSpaces(s) == 0;
  }

  // ---------------------------------------------------------------------------
  // title()
  // ---------------------------------------------------------------------------

  /**
    The title-casing loop of CPython's `str.title()`: each character is
    lower-cased when the character before it is cased, and upper-cased
    otherwise; `cased` tells whether the character before `s` was cased.
   */
  function TitleAfter(s: string, cased: bool): (r: string)
    ensures |r| == |s|
    decreases |s|
  {
    if s == [] then []
    else [if cased then Lower(s[0]) else Upper(s[0])] + TitleAfter(s[1..], IsLetter(s[0]))
  }

  /** What `title()` puts at position `i`, stated on that position alone. */
  function TitleCharAt(s: string, i: nat): char
    requires i < |s|
  {
    if i > 0 && IsLetter(s[i - 1]) then Lower(s[i]) else Upper(s[i])
  }

  /**
    `str.title()` over ASCII, position by position: a letter is upper-cased
    at the start and after a non-letter, and lower-cased after a letter.
   */
  function Title(s: string): (r: string)
    ensures |r| == |s|
  {
    seq(|s|, i requires 0 <= i < |s| => TitleCharAt(s, i))
  }

  lemma {:induction false} TitleAfterAt(s: string, cased: bool, i: nat)
    requires 0 < i < |s|
    ensures TitleAfter(s, cased)[i] == TitleCharAt(s, i)
  {
    if i > 1 {
      TitleAfterAt(s[1..], IsLetter(s[0]), i - 1);
    }
  }

  /** The position-by-position definition is what CPython's left-to-right scan computes. */
  lemma TitleIsScan(s: string)
    ensures Title(s) == TitleAfter(s, false)
  {
    forall i | 0 <= i < |s|
      ensures Title(s)[i] == TitleAfter(s, false)[i]
    {
      if i > 0 {
        TitleAfterAt(s, false, i);
      }
    }
  }

  /** Title-casing keeps each character's class: letter, digit, anything else. */
  lemma TitleKeepsClasses(s: string, i: nat)
    requires i < |s|
    ensures IsLetter(Title(s)[i]) == IsLetter(s[i])
    ensures IsDigit(Title(s)[i]) == IsDigit(s[i])
    ensures !IsLetter(s[i]) ==> Title(s)[i] == s[i]
  {
  }

  /** Title-casing is idempotent. */
  lemma TitleIdempotent(s: string)
    ensures Title(Title(s)) == Title(s)
  {
    var t := Title(s);
    forall i | 0 <= i < |s|
      ensures Title(t)[i] == t[i]
    {
      CaseMapsAbsorb(s[i]);
      if i > 0 {
        TitleKeepsClasses(s, i - 1);
      }
    }
  }

  /** Title-casing a string with no letters changes nothing. */
  lemma TitleWithoutLetters(s: string)
    requires forall k :: 0 <= k < |s| ==> !IsLetter(s[k])
    ensures Title(s) == s
  {
    forall i | 0 <= i < |s|
      ensures Title(s)[i] == s[i]
    {
      TitleKeepsClasses(s, i);
    }
  }

  /** A word boundary (a non-letter) splits title-casing in two. */
  lemma TitleSplits(a: string, b: string)
    requires a == [] || !IsLetter(a[|a| - 1])
    ensures Title(a + b) == Title(a) + Title(b)
  {
    var s := a + b;
    forall i | 0 <= i < |s|
      ensures Title(s)[i] == (Title(a) + Title(b))[i]
    {
    }
  }

  // ---------------------------------------------------------------------------
  // replace()
  // ---------------------------------------------------------------------------

  /** `s.replace(from, to)` for one-character `from` and `to`. */
  function ReplaceChar(s: string, from: char, to: char): (r: string)
    ensures |r| == |s|
    ensures forall k :: 0 <= k < |s| ==> r[k] == if s[k] == from then to else s[k]
  {
    seq(|s|, k requires 0 <= k < |s| => if s[k] == from then to else s[k])
  }

  /** Whether `pat` starts at position `k` of `s`. */
  predicate OccursAt(s: string, pat: string, k: int) {
    0 <= k && k + |pat| <= |s| && s[k..k + |pat|] == pat
  }

  predicate Free(s: string, pat: string) {
    forall k :: 0 <= k <= |s| - |pat| ==> !OccursAt(s, pat, k)
  }

  /** No proper suffix of `pat` is also a prefix of it. */
  predicate Borderless(pat: string) {
    forall m :: 0 < m < |pat| ==> pat[m..] != pat[..|pat| - m]
  }

  /**
    `s.replace(pat, "")`: every occurrence of `pat` found scanning left to
    right, without overlaps, is removed.
   */
  function RemoveAll(s: string, pat: string): (r: string)
    requires pat != []
    ensures |r| <= |s|
    decreases |s|
  {
    if |s| < |pat| then s
    else if s[..|pat|] == pat then RemoveAll(s[|pat|..], pat)
    else [s[0]] + RemoveAll(s[1..], pat)
  }

  /** Removing a pattern that does not occur changes nothing. */
  lemma {:induction false} RemoveAllOfFree(s: string, pat: string)
    requires pat != [] && Free(s, pat)
    ensures RemoveAll(s, pat) == s
    decreases |s|
  {
    if |s| >= |pat| {
      assert !OccursAt(s, pat, 0);
      assert s[..|pat|] != pat;
      var t := s[1..];
      forall k | 0 <= k <= |t| - |pat|
        ensures !OccursAt(t, pat, k)
      {
        assert !OccursAt(s, pat, k + 1);
        assert t[k..k + |pat|] == s[k + 1..k + 1 + |pat|];
      }
      RemoveAllOfFree(t, pat);
    }
  }

  /**
    Appending a borderless pattern adds exactly one occurrence for removal to
    take out: no occurrence can straddle the join.
   */
  lemma {:induction false} RemoveAllOfAppended(b: string, pat: string)
    requires pat != [] && Borderless(pat)
    ensures RemoveAll(b + pat, pat) == RemoveAll(b, pat)
    decreases |b|
  {
    var t := b + pat;
    if |b| >= |pat| {
      assert t[..|pat|] == b[..|pat|];
      if b[..|pat|] == pat {
        assert t[|pat|..] == b[|pat|..] + pat;
        RemoveAllOfAppended(b[|pat|..], pat);
      } else {
        assert t[1..] == b[1..] + pat;
        RemoveAllOfAppended(b[1..], pat);
      }
    } else if b == [] {
      assert t[|pat|..] == [];
    } else {
      var m := |b|;
      assert t[..|pat|][m..] == pat[..|pat| - m];
      assert pat[m..] != pat[..|pat| - m];
      assert t[1..] == b[1..] + pat;
      RemoveAllOfAppended(b[1..], pat);
      assert [b[0]] + b[1..] == b;
    }
  }

  /** A borderless pattern appended to a string free of it is removed exactly. */
  lemma RemoveAllOfSuffix(b: string, pat: string)
    requires pat != [] && Borderless(pat) && Free(b, pat)
    ensures RemoveAll(b + pat, pat) == b
  {
    RemoveAllOfAppended(b, pat);
    RemoveAllOfFree(b, pat);
  }

  /** `s.endswith(suffix)`. */
  predicate EndsWith(s: string, suffix: string) {
    |suffix| <= |s| && s[|s| - |suffix|..] == suffix
  }
}
