/**
 * The parts of Python's `str` behaviour that the purchase handlers rely on:
 * the whitespace class (`str.isspace`, which is also `\s` in a `str` regex),
 * the word class `\w` and IGNORECASE letter matching (both approximated, see
 * the predicates), `str.strip()`, `str.split(sep, 1)`, and `str(n)` / `int(s)`
 * on runs of ASCII digits.
 */
module PyStr {

  datatype Option<+T> = None | Some(value: T)

  /** `text or ""`: a missing text reads as the empty string. */
  function OrEmpty(text: Option<string>): string {
    if text.Some? then text.value else ""
  }

  /** Python's whitespace set: the characters for which `str.isspace()` holds. */
  predicate IsSpace(c: char) {
    || ('\t' <= c <= '\r')
    || ('\U{1C}' <= c <= ' ')
    || c == '\U{85}' || c == '\U{A0}' || c == '\U{1680}'
    || ('\U{2000}' <= c <= '\U{200A}')
    || c == '\U{2028}' || c == '\U{2029}' || c == '\U{202F}' || c == '\U{205F}'
    || c == '\U{3000}'
  }

  predicate IsDigit(c: char) {
    '0' <= c <= '9'
  }

  /**
   * The word class `\w`, restricted to ASCII, the alphanumerics of Latin-1 and
   * the letters of the basic Cyrillic block. Python's class also holds the
   * letters and digits of every other script.
   */
  predicate IsWordChar(c: char) {
    || IsDigit(c) || ('a' <= c <= 'z') || ('A' <= c <= 'Z') || c == '_'
    || c == '\U{AA}' || c == '\U{B2}' || c == '\U{B3}' || c == '\U{B5}'
    || c == '\U{B9}' || c == '\U{BA}' || ('\U{BC}' <= c <= '\U{BE}')
    || ('\U{C0}' <= c <= '\U{D6}') || ('\U{D8}' <= c <= '\U{F6}') || ('\U{F8}' <= c <= '\U{FF}')
    || ('\U{400}' <= c <= '\U{481}') || ('\U{48A}' <= c <= '\U{4FF}')
  }

  /** Lower-case mapping for ASCII and the basic Cyrillic alphabet (U+0400 to U+045F). */
  function Lower(c: char): char {
    if 'A' <= c <= 'Z' || '\U{410}' <= c <= '\U{42F}' then (c as int + 32) as char
    else if '\U{400}' <= c <= '\U{40F}' then (c as int + 80) as char
    else c
  }

  /** Two strings of one length whose letters agree up to case, as IGNORECASE compares them. */
  predicate EqualIgnoringCase(a: string, b: string) {
    |a| == |b| && forall i :: 0 <= i < |a| ==> Lower(a[i]) == Lower(b[i])
  }

  predicate AllSpace(s: string) {
    forall i :: 0 <= i < |s| ==> IsSpace(s[i])
  }

  /** A string with no whitespace at either end: what `strip()` leaves. */
  predicate Trimmed(s: string) {
    s == [] || (!IsSpace(s[0]) && !IsSpace(s[|s| - 1]))
  }

  /** The length of the longest all-whitespace prefix of `s`. */
  function LeadingSpaces(s: string): (k: nat)
    ensures k <= |s|
    ensures AllSpace(s[..k])
    ensures k == |s| || !IsSpace(s[k])
  {
    if s == [] || !IsSpace(s[0]) then 0
    else
      var k := 1 + LeadingSpaces(s[1..]);
      assert s[..k] == [s[0]] + s[1..][..k - 1];
      k
  }

  /** The length of the longest all-whitespace suffix of `s`. */
  function TrailingSpaces(s: string): (k: nat)
    ensures k <= |s|
    ensures AllSpace(s[|s| - k..])
    ensures k == |s| || !IsSpace(s[|s| - 1 - k])
  {
    if s == [] || !IsSpace(s[|s| - 1]) then 0
    else
      var j := TrailingSpaces(s[..|s| - 1]);
      TrailingStep(s, j);
      1 + j
  }

  /** A whitespace suffix of `s` without its last character grows by that character when it is a space. */
  lemma TrailingStep(s: string, j: nat)
    requires s != [] && IsSpace(s[|s| - 1]) && j <= |s| - 1
    requires AllSpace(s[..|s| - 1][|s| - 1 - j..])
    requires j == |s| - 1 || !IsSpace(s[..|s| - 1][|s| - 2 - j])
    ensures AllSpace(s[|s| - (j + 1)..])
    ensures j + 1 == |s| || !IsSpace(s[|s| - 2 - j])
  {
    var p, q := s[..|s| - 1], s[|s| - (j + 1)..];
    forall i | 0 <= i < |q|
      ensures IsSpace(q[i])
    {
      if i < j {
        assert q[i] == p[|s| - 1 - j..][i];
      }
    }
    if j + 1 < |s| {
      assert s[|s| - 2 - j] == p[|s| - 2 - j];
    }
  }

  /** A whitespace run that is followed by a non-space is the longest one. */
  lemma LeadingSpacesUnique(s: string, k: nat)
    requires k < |s| && AllSpace(s[..k]) && !IsSpace(s[k])
    ensures LeadingSpaces(s) == k
  {
    var m := LeadingSpaces(s);
    assert forall j :: 0 <= j < k ==> s[..k][j] == s[j];
    assert m < |s| ==> s[..m + 1][m] == s[m];
  }

  /** A whitespace run that is preceded by a non-space is the longest one. */
  lemma TrailingSpacesUnique(s: string, k: nat)
    requires k < |s| && AllSpace(s[|s| - k..]) && !IsSpace(s[|s| - 1 - k])
    ensures TrailingSpaces(s) == k
  {
    var m := TrailingSpaces(s);
    assert forall j :: |s| - k <= j < |s| ==> s[|s| - k..][j - (|s| - k)] == s[j];
    assert m < |s| ==> s[|s| - 1 - m..][0] == s[|s| - 1 - m];
  }

  lemma AllSpaceConcat(x: string, y: string)
    requires AllSpace(x) && AllSpace(y)
    ensures AllSpace(x + y)
  {
    forall i | 0 <= i < |x + y| ensures IsSpace((x + y)[i]) {
      if i < |x| { assert (x + y)[i] == x[i]; } else { assert (x + y)[i] == y[i - |x|]; }
    }
  }

  /** `str.strip()`: `s` without its leading and trailing whitespace. */
  function Strip(s: string): (r: string)
    ensures Trimmed(r)
    ensures |r| <= |s|
  {
    var a := LeadingSpaces(s);
    var rest := s[a..];
    var b := TrailingSpaces(rest);
    var r := rest[..|rest| - b];
    assert rest != [] ==> rest[|rest| - b..] == rest || !IsSpace(rest[|rest| - 1 - b]);
    assert rest != [] ==> rest[0] == s[a] && !IsSpace(rest[0]);
    assert rest != [] ==> b < |rest|;
    assert r != [] ==> r[0] == rest[0] && r[|r| - 1] == rest[|rest| - 1 - b];
    r
  }

  /** What `strip()` removed is whitespace, from the two ends of `s` only. */
  lemma StripSplit(s: string) returns (pre: string, post: string)
    ensures AllSpace(pre) && AllSpace(post)
    ensures s == pre + Strip(s) + post
  {
    var a := LeadingSpaces(s);
    var rest := s[a..];
    var b := TrailingSpaces(rest);
    var m := rest[..|rest| - b];
    pre, post := s[..a], rest[|rest| - b..];
    JoinAt(s, a);
    JoinAt(rest, |rest| - b);
    ConcatAssoc(pre, m, post);
  }

  lemma JoinAt(s: string, i: nat)
    requires i <= |s|
    ensures s == s[..i] + s[i..]
  {
  }

  lemma ConcatAssoc(x: string, y: string, z: string)
    ensures x + (y + z) == x + y + z
  {
  }

  /** Padding a trimmed string with whitespace on either side is undone by `strip()`. */
  lemma StripPadded(a: string, m: string, b: string)
    requires AllSpace(a) && AllSpace(b) && Trimmed(m)
    ensures Strip(a + m + b) == m
  {
    var s := a + m + b;
    if m == [] {
      AllSpaceConcat(a, b);
      assert s == a + b;
      assert LeadingSpaces(s) == |s|;
    } else {
      assert s[..|a|] == a;
      assert s[|a|] == m[0];
      LeadingSpacesUnique(s, |a|);
      var rest := s[|a|..];
      assert rest == m + b;
      assert rest[|rest| - |b|..] == b;
      assert rest[|rest| - 1 - |b|] == m[|m| - 1];
      TrailingSpacesUnique(rest, |b|);
      assert rest[..|rest| - |b|] == m;
    }
  }

  /** `strip()` ignores any whitespace added around its argument. */
  lemma StripIgnoresPadding(a: string, s: string, b: string)
    requires AllSpace(a) && AllSpace(b)
    ensures Strip(a + s + b) == Strip(s)
  {
    var m := Strip(s);
    var a', b' := StripSplit(s);
    AllSpaceConcat(a, a');
    AllSpaceConcat(b', b);
    ConcatRegroup(a, a', m, b', b);
    StripPadded(a + a', m, b' + b);
  }

  lemma ConcatRegroup(a: string, a': string, m: string, b': string, b: string)
    ensures a + (a' + m + b') + b == (a + a') + m + (b' + b)
  {
  }

  /** `strip()` leaves a string alone exactly when it has no whitespace at either end. */
  lemma StripFixedIffTrimmed(s: string)
    ensures Strip(s) == s <==> Trimmed(s)
  {
    if Trimmed(s) {
      StripPadded([], s, []);
      assert [] + s + [] == s;
    }
  }

  /** Stripping twice is stripping once. */
  lemma StripIdempotent(s: string)
    ensures Strip(Strip(s)) == Strip(s)
  {
    StripFixedIffTrimmed(Strip(s));
  }

  /** The index of the first occurrence of `c` in `s`, if any. */
  function FindFirst(s: string, c: char): (r: Option<nat>)
    ensures r.None? <==> c !in s
    ensures r.Some? ==> r.value < |s| && s[r.value] == c && c !in s[..r.value]
  {
    if s == [] then None
    else if s[0] == c then Some(0)
    else match FindFirst(s[1..], c)
      case None => None
      case Some(i) =>
        assert s[..i + 1] == [s[0]] + s[1..][..i];
        Some(i + 1)
  }

  /**
   * `s.split(sep, 1)`: the text before the first `sep` and the text after it,
   * or `[s]` alone when `sep` does not occur.
   */
  function SplitOnce(s: string, sep: char): (parts: seq<string>)
    ensures 1 <= |parts| <= 2
    ensures |parts| == 1 <==> sep !in s
    ensures |parts| == 1 ==> parts[0] == s
    ensures |parts| == 2 ==> s == parts[0] + [sep] + parts[1] && sep !in parts[0]
  {
    match FindFirst(s, sep)
    case None => [s]
    case Some(i) =>
      assert s == s[..i] + [sep] + s[i + 1..];
      [s[..i], s[i + 1..]]
  }

  /** Joining at the first separator is undone by `SplitOnce`: the split is unique. */
  lemma SplitOnceJoin(a: string, sep: char, b: string)
    requires sep !in a
    ensures SplitOnce(a + [sep] + b, sep) == [a, b]
  {
    var s := a + [sep] + b;
    assert s[|a|] == sep;
    var parts := SplitOnce(s, sep);
    var i := |parts[0]|;
    assert parts[0] == a;
    assert parts[1] == s[|a| + 1..] == b;
  }

  predicate AllDigits(s: string) {
    forall i :: 0 <= i < |s| ==> IsDigit(s[i])
  }

  /** A decimal numeral as `str(n)` writes it: digits only, no leading zero. */
  predicate Canonical(s: string) {
    |s| >= 1 && AllDigits(s) && (|s| > 1 ==> s[0] != '0')
  }

  function DigitChar(d: nat): char
    requires d < 10
  {
    ('0' as int + d) as char
  }

  function DigitValue(c: char): nat
    requires IsDigit(c)
  {
    c as int - '0' as int
  }

  /** `str(n)` for a non-negative integer. */
  function Decimal(n: nat): (s: string)
    ensures Canonical(s)
  {
    if n < 10 then [DigitChar(n)]
    else
      var s := Decimal(n / 10) + [DigitChar(n % 10)];
      assert s[0] == Decimal(n / 10)[0];
      s
  }

  /** `int(s)` for a run of ASCII digits. */
  function IntValue(s: string): nat
    requires AllDigits(s)
  {
    if s == [] then 0 else 10 * IntValue(s[..|s| - 1]) + DigitValue(s[|s| - 1])
  }

  /** `int(str(n)) == n`. */
  lemma {:induction false} IntValueOfDecimal(n: nat)
    ensures IntValue(Decimal(n)) == n
  {
    if n >= 10 {
      var s := Decimal(n);
      assert s[..|s| - 1] == Decimal(n / 10);
      IntValueOfDecimal(n / 10);
    }
  }

  /** A numeral that starts with a non-zero digit has a positive value. */
  lemma {:induction false} IntValuePositive(s: string)
    requires |s| >= 1 && AllDigits(s) && s[0] != '0'
    ensures IntValue(s) >= 1
  {
    if |s| > 1 {
      IntValuePositive(s[..|s| - 1]);
    }
  }

  /** `str(int(s)) == s` for every numeral without a leading zero. */
  lemma {:induction false} DecimalOfIntValue(s: string)
    requires Canonical(s)
    ensures Decimal(IntValue(s)) == s
  {
    var n := IntValue(s);
    if |s| == 1 {
      assert s[..|s| - 1] == [];
      assert n == 10 * IntValue([]) + DigitValue(s[0]);
      assert DigitChar(n) == s[0];
    } else {
      var p := s[..|s| - 1];
      assert Canonical(p);
      IntValuePositive(p);
      DecimalOfIntValue(p);
      assert n / 10 == IntValue(p) && n % 10 == DigitValue(s[|s| - 1]);
      assert s == p + [s[|s| - 1]];
    }
  }

  /** Distinct numbers have distinct decimal forms. */
  lemma DecimalInjective(m: nat, n: nat)
    requires Decimal(m) == Decimal(n)
    ensures m == n
  {
    IntValueOfDecimal(m);
    IntValueOfDecimal(n);
  }
}
