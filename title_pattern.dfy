/**
  The numbered-name pattern shared by both `format_title` functions:
  `re.match(r"(\d+)_([a-zA-Z0-9\-]+)", name)`, the `str(int(...))` applied to
  its first group, and the `"<number>. <Title>"` result built from both groups.
 */
module TitlePattern {
  import opened Wrappers
  import opened PyStr

  /** The characters of the class `[a-zA-Z0-9\-]`. */
  predicate IsSlugChar(c: char) { IsLetter(c) || IsDigit(c) || c == '-' }

  predicate AllDigits(s: string) {
    forall k :: 0 <= k < |s| ==> IsDigit(s[k])
  }

  predicate AllSlug(s: string) {
    forall k :: 0 <= k < |s| ==> IsSlugChar(s[k])
  }

  // ---------------------------------------------------------------------------
  // re.match, as a scan
  // ---------------------------------------------------------------------------

  /** Length of the longest digit prefix of `s`: what the greedy `\d+` consumes. */
  function DigitRun(s: string): (n: nat)
    ensures n <= |s| && AllDigits(s[..n])
    ensures n < |s| ==> !IsDigit(s[n])
  {
    if s != [] && IsDigit(s[0]) then
      var m := DigitRun(s[1..]);
      assert s[..1 + m] == [s[0]] + s[1..][..m];
      1 + m
    else 0
  }

  /** Length of the longest prefix of `s` in `[a-zA-Z0-9\-]`. */
  function SlugRun(s: string): (n: nat)
    ensures n <= |s| && AllSlug(s[..n])
    ensures n < |s| ==> !IsSlugChar(s[n])
  {
    if s != [] && IsSlugChar(s[0]) then
      var m := SlugRun(s[1..]);
      assert s[..1 + m] == [s[0]] + s[1..][..m];
      1 + m
    else 0
  }

  /** The two capture groups of a successful match. */
  datatype Groups = Groups(number: string, slug: string)

  /**
    Whether the pattern, anchored at the start of `s`, can match `s[..j]`
    with group 1 = `s[..i]` and group 2 = `s[i + 1..j]`.
   */
  predicate Accepts(s: string, i: int, j: int) {
    0 < i && i + 1 < j <= |s| && AllDigits(s[..i]) && s[i] == '_' && AllSlug(s[i + 1..j])
  }

  /**
    Every way the pattern can match `s` uses the whole digit run as group 1
    and ends no later than where the scan stops.
   */
  lemma MatchesAreBounded(s: string)
    ensures forall i, j :: Accepts(s, i, j) ==>
              && i == DigitRun(s) && IsSlugChar(s[i + 1])
              && j <= DigitRun(s) + 1 + SlugRun(s[DigitRun(s) + 1..])
  {
    forall i, j | Accepts(s, i, j)
      ensures && i == DigitRun(s) && IsSlugChar(s[i + 1])
              && j <= DigitRun(s) + 1 + SlugRun(s[DigitRun(s) + 1..])
    {
      var n := DigitRun(s);
      assert forall k :: 0 <= k < n ==> IsDigit(s[k]) by {
        forall k | 0 <= k < n ensures IsDigit(s[k]) { assert s[..n][k] == s[k]; }
      }
      assert forall k :: 0 <= k < i ==> IsDigit(s[k]) by {
        forall k | 0 <= k < i ensures IsDigit(s[k]) { assert s[..i][k] == s[k]; }
      }
      assert i == n;
      var t := s[n + 1..];
      var m := SlugRun(t);
      assert forall k :: i + 1 <= k < j ==> IsSlugChar(s[k]) by {
        forall k | i + 1 <= k < j ensures IsSlugChar(s[k]) { assert s[i + 1..j][k - i - 1] == s[k]; }
      }
      assert n + 1 + m < |s| ==> s[n + 1 + m] == t[m];
    }
  }

  /**
    `re.match(r"(\d+)_([a-zA-Z0-9\-]+)", s)`: the match exists exactly when
    the pattern can match some prefix of `s`; its groups are then the whole
    digit run and the longest slug after the underscore, and no other way of
    matching reaches further.
   */
  function Match(s: string): (m: Option<Groups>)
    ensures m.None? <==> forall i, j :: !Accepts(s, i, j)
    ensures m.Some? ==>
              var i, j := |m.value.number|, |m.value.number| + 1 + |m.value.slug|;
              && Accepts(s, i, j)
              && m.value.number == s[..i]
              && m.value.slug == s[i + 1..j]
              && forall i', j' :: Accepts(s, i', j') ==> i' == i && j' <= j
  {
    var n := DigitRun(s);
    MatchesAreBounded(s);
    if 0 < n && n + 1 < |s| && s[n] == '_' && IsSlugChar(s[n + 1]) then
      var t := s[n + 1..];
      var k := SlugRun(t);
      assert t[0] == s[n + 1];
      assert s[n + 1..n + 1 + k] == t[..k];
      assert Accepts(s, n, n + 1 + k);
      Some(Groups(s[..n], s[n + 1..n + 1 + k]))
    else
      None
  }

  /** A maximal match given by its boundaries is the one `Match` returns. */
  lemma {:induction false} MatchAt(s: string, i: nat, j: nat)
    requires Accepts(s, i, j) && (j == |s| || !IsSlugChar(s[j]))
    ensures Match(s) == Some(Groups(s[..i], s[i + 1..j]))
  {
    var g := Match(s).value;
    var e := |g.number| + 1 + |g.slug|;
    assert |g.number| == i && j <= e;
    assert forall k :: i + 1 <= k < e ==> IsSlugChar(s[k]) by {
      forall k | i + 1 <= k < e ensures IsSlugChar(s[k]) { assert s[i + 1..e][k - i - 1] == s[k]; }
    }
  }

  // ---------------------------------------------------------------------------
  // int() and str()
  // ---------------------------------------------------------------------------

  function DigitValue(c: char): nat
    requires IsDigit(c)
  {
    c as int - '0' as int
  }

  function DigitChar(d: nat): (c: char)
    requires d < 10
    ensures IsDigit(c) && DigitValue(c) == d
  {
    ('0' as int + d) as char
  }

  /** `int(ds)` for a non-empty string of ASCII digits, read most significant first. */
  function DecimalValue(ds: string): nat
    requires AllDigits(ds)
    decreases |ds|
  {
    if ds == [] then 0 else DecimalValue(ds[..|ds| - 1]) * 10 + DigitValue(ds[|ds| - 1])
  }

  /** How Python writes a number in base 10: digits only, no leading zero. */
  predicate IsCanonical(ds: string) {
    ds != [] && AllDigits(ds) && (ds[0] == '0' ==> |ds| == 1)
  }

  /** `str(n)`: the canonical numeral whose value is `n`. */
  function Decimal(n: nat): (r: string)
    ensures IsCanonical(r) && DecimalValue(r) == n
  {
    if n < 10 then [DigitChar(n)]
    else
      var p := Decimal(n / 10);
      var r := p + [DigitChar(n % 10)];
      assert r[..|r| - 1] == p;
      r
  }

  /** `ds` with its leading zeros dropped, keeping one digit when all are zero. */
  function DropLeadingZeros(ds: string): (r: string)
    requires ds != [] && AllDigits(ds)
  {
    if |ds| > 1 && ds[0] == '0' then DropLeadingZeros(ds[1..]) else ds
  }

  lemma {:induction false} LeadingZeroHasNoValue(t: string)
    requires AllDigits(t)
    ensures AllDigits(['0'] + t) && DecimalValue(['0'] + t) == DecimalValue(t)
    decreases |t|
  {
    var z := ['0'] + t;
    if t != [] {
      var init := t[..|t| - 1];
      assert z[..|z| - 1] == ['0'] + init;
      LeadingZeroHasNoValue(init);
    } else {
      assert z[..|z| - 1] == [];
    }
  }

  lemma {:induction false} DropLeadingZerosKeepsValue(ds: string)
    requires ds != [] && AllDigits(ds)
    ensures IsCanonical(DropLeadingZeros(ds))
    ensures DecimalValue(DropLeadingZeros(ds)) == DecimalValue(ds)
    decreases |ds|
  {
    if |ds| > 1 && ds[0] == '0' {
      DropLeadingZerosKeepsValue(ds[1..]);
      LeadingZeroHasNoValue(ds[1..]);
      assert ['0'] + ds[1..] == ds;
    }
  }

  lemma {:induction false} LeadingNonZeroIsPositive(ds: string)
    requires ds != [] && AllDigits(ds) && ds[0] != '0'
    ensures DecimalValue(ds) >= 1
    decreases |ds|
  {
    if |ds| > 1 {
      LeadingNonZeroIsPositive(ds[..|ds| - 1]);
    } else {
      assert ds[..0] == [];
    }
  }

  /** `str` undoes `int` on canonical numerals. */
  lemma {:induction false} DecimalOfCanonical(c: string)
    requires IsCanonical(c)
    ensures Decimal(DecimalValue(c)) == c
    decreases |c|
  {
    var v := DecimalValue(c);
    if |c| == 1 {
      assert c[..0] == [] && c[|c| - 1] == c[0];
      assert DecimalValue(c[..0]) == 0;
      assert v == DigitValue(c[0]) < 10;
      assert Decimal(v) == [DigitChar(v)];
    } else {
      var p := c[..|c| - 1];
      var d := DigitValue(c[|c| - 1]);
      LeadingNonZeroIsPositive(p);
      DecimalOfCanonical(p);
      assert v == DecimalValue(p) * 10 + d;
      assert v / 10 == DecimalValue(p) && v % 10 == d;
      assert DigitChar(d) == c[|c| - 1];
      assert c == p + [c[|c| - 1]];
    }
  }

  /**
    `str(int(ds))` drops the leading zeros of a digit string and keeps a
    single `0` when every digit is zero: "02" gives "2", "10" gives "10".
   */
  lemma NumberDropsLeadingZeros(ds: string)
    requires ds != [] && AllDigits(ds)
    ensures Decimal(DecimalValue(ds)) == DropLeadingZeros(ds)
  {
    DropLeadingZerosKeepsValue(ds);
    DecimalOfCanonical(DropLeadingZeros(ds));
  }

  // ---------------------------------------------------------------------------
  // The numbered title, lines 24-26 of main.py and 10-12 of rename.py
  // ---------------------------------------------------------------------------

  /** `f"{str(int(number))}. {slug.replace('-', ' ').title()}"`. */
  function NumberedTitle(g: Groups): string
    requires AllDigits(g.number)
  {
    Decimal(DecimalValue(g.number)) + ". " + Title(ReplaceChar(g.slug, '-', ' '))
  }
}
