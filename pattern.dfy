/**
 * Both purchase regexes have one shape,
 *
 *     ^LEAD\s+(ALT1|ALT2|...)FOLLOW      compiled with re.IGNORECASE
 *
 * where every ALT is a decimal numeral and FOLLOW is either `\b` or
 * `\s+WORD`. This module gives a deterministic recogniser for that shape
 * (`MatchGroup`, the text of group 1 after `re.match`), a declarative
 * statement of what it means for the regex to match (`Matches`, which lets
 * `\s+` take any number of characters, as backtracking does), and proves the
 * two agree. It also proves that at most one alternative can ever match, so
 * the order in which the alternatives are written never changes the result.
 */
module Pattern {
  import opened PyStr

  /** What the regex demands right after the captured numeral. */
  datatype Follow =
    | WordBoundary              // `\b`
    | SpacesThen(word: string)  // `\s+` and then `word`, ignoring case

  datatype Regex = Regex(lead: string, alts: seq<string>, follow: Follow)

  /** The alternatives are numerals as `str()` writes them; the word after `\s+` starts with a non-space. */
  predicate WellFormed(p: Regex) {
    && (forall i :: 0 <= i < |p.alts| ==> Canonical(p.alts[i]))
    && (p.follow.SpacesThen? ==> |p.follow.word| > 0 && !IsSpace(Lower(p.follow.word[0])))
  }

  lemma AltCanonical(p: Regex, g: string)
    requires WellFormed(p) && g in p.alts
    ensures Canonical(g)
  {
    var i :| 0 <= i < |p.alts| && p.alts[i] == g;
  }

  // ---------------------------------------------------------------------------
  // The recogniser

  /** `re.match(p, t)`: the text of group 1, or `None` when the regex does not match. */
  function MatchGroup(p: Regex, t: string): (r: Option<string>)
    ensures r.Some? ==> r.value in p.alts && |p.lead| < |t|
  {
    var n := |p.lead|;
    if |t| < n || !EqualIgnoringCase(t[..n], p.lead) then None
    else
      var rest := t[n..];
      var k := LeadingSpaces(rest);
      if k == 0 then None else FirstAlternative(rest[k..], p.alts, p.follow)
  }

  /** The first alternative, in the written order, that `s` starts with and that FOLLOW accepts after. */
  function FirstAlternative(s: string, alts: seq<string>, f: Follow): (r: Option<string>)
    ensures r.None? <==> forall i :: 0 <= i < |alts| ==> !AltFits(s, alts[i], f)
    ensures r.Some? ==> r.value in alts && AltFits(s, r.value, f)
    ensures r.Some? ==> exists i :: 0 <= i < |alts| && alts[i] == r.value && forall j :: 0 <= j < i ==> !AltFits(s, alts[j], f)
  {
    if alts == [] then None
    else if AltFits(s, alts[0], f) then Some(alts[0])
    else
      var r := FirstAlternative(s, alts[1..], f);
      assert forall i :: 1 <= i < |alts| ==> alts[i] == alts[1..][i - 1];
      if r.None? then r
      else
        var i :| 0 <= i < |alts[1..]| && alts[1..][i] == r.value && forall j :: 0 <= j < i ==> !AltFits(s, alts[1..][j], f);
        assert alts[i + 1] == r.value;
        r
  }

  /** `s` starts with the numeral `g` and FOLLOW accepts what comes after it. */
  predicate AltFits(s: string, g: string, f: Follow) {
    |g| <= |s| && s[..|g|] == g && FollowFits(s[|g|..], f)
  }

  /** FOLLOW accepts `u`, the text right after a numeral. */
  predicate FollowFits(u: string, f: Follow) {
    match f
    case WordBoundary => u == [] || !IsWordChar(u[0])
    case SpacesThen(w) =>
      var j := LeadingSpaces(u);
      j > 0 && j + |w| <= |u| && EqualIgnoringCase(u[j..j + |w|], w)
  }

  // ---------------------------------------------------------------------------
  // What a match means

  /** `\b` at index `i` of `t`: exactly one of the characters around `i` is a word character. */
  predicate BoundaryAt(t: string, i: nat)
    requires i <= |t|
  {
    (0 < i && IsWordChar(t[i - 1])) != (i < |t| && IsWordChar(t[i]))
  }

  /** `\s+` takes the `j` characters from index `i` on, and `w` follows them. */
  predicate SpacesThenAt(t: string, i: nat, j: nat, w: string) {
    1 <= j && i + j + |w| <= |t| && AllSpace(t[i..i + j]) && EqualIgnoringCase(t[i + j..i + j + |w|], w)
  }

  ghost predicate FollowsAt(t: string, i: nat, f: Follow)
    requires i <= |t|
  {
    match f
    case WordBoundary => BoundaryAt(t, i)
    case SpacesThen(w) => exists j :: SpacesThenAt(t, i, j, w)
  }

  /** One way for the regex to match `t`: `\s+` takes `k` characters and group 1 is `g`. */
  ghost predicate MatchesWith(lead: string, follow: Follow, t: string, k: nat, g: string) {
    |lead| <= |t| && EqualIgnoringCase(t[..|lead|], lead) && MatchesAfterLead(t, |lead|, follow, k, g)
  }

  /** After the lead ends at index `n`, `\s+` takes `k` characters, group 1 is `g`, and FOLLOW holds. */
  ghost predicate MatchesAfterLead(t: string, n: nat, follow: Follow, k: nat, g: string) {
    && 1 <= k && n + k + |g| <= |t|
    && AllSpace(t[n..n + k])
    && t[n + k..n + k + |g|] == g
    && FollowsAt(t, n + k + |g|, follow)
  }

  /** The regex matches `t` with the alternative `g` as group 1. */
  ghost predicate Matches(p: Regex, t: string, g: string) {
    g in p.alts && exists k :: MatchesWith(p.lead, p.follow, t, k, g)
  }

  // ---------------------------------------------------------------------------
  // The recogniser meets the declarative meaning

  /** The shortest run `\s+` accepts before `w` is found by the deterministic test too. */
  lemma SpacesThenFromFits(t: string, i: nat, w: string)
    requires i <= |t| && FollowFits(t[i..], SpacesThen(w))
    ensures SpacesThenAt(t, i, LeadingSpaces(t[i..]), w)
  {
    var u := t[i..];
    var j := LeadingSpaces(u);
    assert t[i..i + j] == u[..j];
    assert t[i + j..i + j + |w|] == u[j..j + |w|];
  }

  /** Any run that `\s+` can take before `w` is the longest whitespace run. */
  lemma FitsFromSpacesThen(t: string, i: nat, j: nat, w: string)
    requires i <= |t| && SpacesThenAt(t, i, j, w)
    requires |w| > 0 && !IsSpace(Lower(w[0]))
    ensures FollowFits(t[i..], SpacesThen(w))
  {
    var u := t[i..];
    assert u[..j] == t[i..i + j];
    assert u[j] == t[i + j] == t[i + j..i + j + |w|][0];
    assert Lower(u[j]) == Lower(w[0]);
    assert !IsSpace(u[j]);
    LeadingSpacesUnique(u, j);
    assert u[j..j + |w|] == t[i + j..i + j + |w|];
  }

  /** After a numeral, the deterministic FOLLOW test and the regex's FOLLOW agree. */
  lemma FollowFitsIffFollows(t: string, i: nat, f: Follow)
    requires 0 < i <= |t| && IsDigit(t[i - 1])
    requires f.SpacesThen? ==> |f.word| > 0 && !IsSpace(Lower(f.word[0]))
    ensures FollowFits(t[i..], f) <==> FollowsAt(t, i, f)
  {
    match f
    case WordBoundary =>
      assert i < |t| ==> t[i..][0] == t[i];
    case SpacesThen(w) =>
      if FollowFits(t[i..], f) {
        SpacesThenFromFits(t, i, w);
      }
      if j: nat :| SpacesThenAt(t, i, j, w) {
        FitsFromSpacesThen(t, i, j, w);
      }
  }

  /** Slicing the suffix of a suffix is slicing the original text. */
  lemma SuffixSlices(t: string, n: nat, k: nat, m: nat)
    requires n + k + m <= |t|
    ensures t[n..][..k] == t[n..n + k]
    ensures t[n..][k..][..m] == t[n + k..n + k + m]
    ensures t[n..][k..][m..] == t[n + k + m..]
  {
  }

  /** A whitespace run that ends where a numeral begins is the longest run. */
  lemma RunBeforeNumeral(t: string, n: nat, k: nat, g: string)
    requires Canonical(g) && n + k + |g| <= |t|
    requires AllSpace(t[n..n + k]) && t[n + k..n + k + |g|] == g
    ensures LeadingSpaces(t[n..]) == k
  {
    SuffixSlices(t, n, k, |g|);
    var rest := t[n..];
    assert rest[k] == t[n + k..n + k + |g|][0] == g[0];
    assert IsDigit(g[0]);
    LeadingSpacesUnique(rest, k);
  }

  /** After the numeral, the recogniser's FOLLOW test agrees with the regex's FOLLOW. */
  lemma FollowAfterNumeral(t: string, n: nat, k: nat, g: string, f: Follow)
    requires Canonical(g) && n + k + |g| <= |t| && t[n + k..n + k + |g|] == g
    requires f.SpacesThen? ==> |f.word| > 0 && !IsSpace(Lower(f.word[0]))
    ensures AltFits(t[n..][k..], g, f) <==> FollowsAt(t, n + k + |g|, f)
  {
    AltFitsAt(t, n, k, g, f);
    NumeralEndsInDigit(t, n + k, g);
    FollowFitsIffFollows(t, n + k + |g|, f);
  }

  /** The recogniser's test at the numeral is FOLLOW's test on the text after it. */
  lemma AltFitsAt(t: string, n: nat, k: nat, g: string, f: Follow)
    requires n + k + |g| <= |t| && t[n + k..n + k + |g|] == g
    ensures AltFits(t[n..][k..], g, f) <==> FollowFits(t[n + k + |g|..], f)
  {
    SuffixSlices(t, n, k, |g|);
  }

  /** The character before the end of a numeral standing in the text is a digit. */
  lemma NumeralEndsInDigit(t: string, j: nat, g: string)
    requires Canonical(g) && j + |g| <= |t| && t[j..j + |g|] == g
    ensures IsDigit(t[j + |g| - 1])
  {
    assert t[j + |g| - 1] == t[j..j + |g|][|g| - 1];
  }

  /** One direction of `FollowAfterNumeral`. */
  lemma FollowsFromFits(t: string, n: nat, k: nat, g: string, f: Follow)
    requires Canonical(g) && n + k + |g| <= |t| && t[n + k..n + k + |g|] == g
    requires f.SpacesThen? ==> |f.word| > 0 && !IsSpace(Lower(f.word[0]))
    requires AltFits(t[n..][k..], g, f)
    ensures FollowsAt(t, n + k + |g|, f)
  {
    FollowAfterNumeral(t, n, k, g, f);
  }

  /** The longest whitespace run after index `n`, read off the text itself. */
  lemma RunIsSpaces(t: string, n: nat)
    requires n <= |t|
    ensures n + LeadingSpaces(t[n..]) <= |t| && AllSpace(t[n..n + LeadingSpaces(t[n..])])
  {
    var k := LeadingSpaces(t[n..]);
    assert t[n..][..k] == t[n..n + k];
  }

  /** A numeral that fits after the run stands in the text right after it. */
  lemma NumeralAt(t: string, n: nat, k: nat, g: string, f: Follow)
    requires n + k <= |t| && AltFits(t[n..][k..], g, f)
    ensures n + k + |g| <= |t| && t[n + k..n + k + |g|] == g
  {
    SuffixSlices(t, n, k, |g|);
  }

  /** With the longest run of whitespace, the recogniser's test and the regex agree. */
  lemma MatchesWithFromFits(t: string, n: nat, follow: Follow, g: string)
    requires Canonical(g)
    requires follow.SpacesThen? ==> |follow.word| > 0 && !IsSpace(Lower(follow.word[0]))
    requires n <= |t| && LeadingSpaces(t[n..]) >= 1
    requires AltFits(t[n..][LeadingSpaces(t[n..])..], g, follow)
    ensures MatchesAfterLead(t, n, follow, LeadingSpaces(t[n..]), g)
  {
    var k := LeadingSpaces(t[n..]);
    RunIsSpaces(t, n);
    NumeralAt(t, n, k, g, follow);
    FollowsFromFits(t, n, k, g, follow);
    AfterLeadOfParts(t, n, follow, k, g);
  }

  lemma AfterLeadOfParts(t: string, n: nat, follow: Follow, k: nat, g: string)
    requires 1 <= k && n + k + |g| <= |t|
    requires AllSpace(t[n..n + k])
    requires t[n + k..n + k + |g|] == g
    requires FollowsAt(t, n + k + |g|, follow)
    ensures MatchesAfterLead(t, n, follow, k, g)
  {
  }

  /** Any run of whitespace that lets the regex match is the longest run. */
  lemma FitsFromMatchesWith(t: string, n: nat, follow: Follow, k: nat, g: string)
    requires Canonical(g)
    requires follow.SpacesThen? ==> |follow.word| > 0 && !IsSpace(Lower(follow.word[0]))
    requires MatchesAfterLead(t, n, follow, k, g)
    ensures LeadingSpaces(t[n..]) == k
    ensures AltFits(t[n..][k..], g, follow)
  {
    RunBeforeNumeral(t, n, k, g);
    FollowAfterNumeral(t, n, k, g, follow);
  }

  /**
   * For one alternative, the regex matches with some length of `\s+` exactly
   * when it matches with the longest one, which is the one the recogniser tries.
   */
  lemma MatchesIffFits(p: Regex, t: string, g: string)
    requires WellFormed(p) && g in p.alts
    requires |p.lead| <= |t| && EqualIgnoringCase(t[..|p.lead|], p.lead)
    ensures (exists k :: MatchesWith(p.lead, p.follow, t, k, g))
        <==> (LeadingSpaces(t[|p.lead|..]) >= 1 && AltFits(t[|p.lead|..][LeadingSpaces(t[|p.lead|..])..], g, p.follow))
  {
    AltCanonical(p, g);
    if LeadingSpaces(t[|p.lead|..]) >= 1 && AltFits(t[|p.lead|..][LeadingSpaces(t[|p.lead|..])..], g, p.follow) {
      MatchesWithFromFits(t, |p.lead|, p.follow, g);
      assert MatchesWith(p.lead, p.follow, t, LeadingSpaces(t[|p.lead|..]), g);
    }
    if k: nat :| MatchesWith(p.lead, p.follow, t, k, g) {
      FitsFromMatchesWith(t, |p.lead|, p.follow, k, g);
    }
  }

  /** A numeral that passes FOLLOW is not followed by another digit. */
  lemma AltFitsEndsNumeral(s: string, g: string, f: Follow)
    requires AltFits(s, g, f)
    ensures |g| == |s| || !IsDigit(s[|g|])
  {
    var u := s[|g|..];
    assert u != [] ==> u[0] == s[|g|];
  }

  /** No text starts with two different numerals that both pass FOLLOW. */
  lemma AltFitsExclusive(s: string, g1: string, g2: string, f: Follow)
    requires Canonical(g1) && Canonical(g2)
    requires AltFits(s, g1, f) && AltFits(s, g2, f)
    ensures g1 == g2
  {
    AltFitsEndsNumeral(s, g1, f);
    AltFitsEndsNumeral(s, g2, f);
    assert forall i :: 0 <= i < |g1| ==> s[i] == s[..|g1|][i] == g1[i];
    assert forall i :: 0 <= i < |g2| ==> s[i] == s[..|g2|][i] == g2[i];
  }

  /** The recogniser returns `g` exactly when the regex matches with group 1 equal to `g`. */
  lemma MatchGroupIff(p: Regex, t: string, g: string)
    requires WellFormed(p)
    ensures MatchGroup(p, t) == Some(g) <==> Matches(p, t, g)
  {
    var n := |p.lead|;
    if |t| < n || !EqualIgnoringCase(t[..n], p.lead) {
      return;
    }
    var rest := t[n..];
    var k := LeadingSpaces(rest);
    var s := rest[k..];
    if MatchGroup(p, t) == Some(g) {
      MatchesIffFits(p, t, g);
    }
    if Matches(p, t, g) {
      MatchesIffFits(p, t, g);
      var r := FirstAlternative(s, p.alts, p.follow);
      AltCanonical(p, g);
      assert r.Some?;
      AltCanonical(p, r.value);
      AltFitsExclusive(s, r.value, g, p.follow);
    }
  }

  /** The regex fails to match exactly when no alternative can be group 1. */
  lemma MatchGroupNoneIff(p: Regex, t: string)
    requires WellFormed(p)
    ensures MatchGroup(p, t).None? <==> forall g :: !Matches(p, t, g)
  {
    if MatchGroup(p, t).Some? {
      MatchGroupIff(p, t, MatchGroup(p, t).value);
    }
    forall g | Matches(p, t, g) ensures MatchGroup(p, t).Some? {
      MatchGroupIff(p, t, g);
    }
  }

  /** Whether the regex matches with a given group depends only on LEAD and FOLLOW. */
  lemma MatchesSameShape(p: Regex, q: Regex, t: string, g: string)
    requires p.lead == q.lead && p.follow == q.follow && g in p.alts && g in q.alts
    ensures Matches(p, t, g) <==> Matches(q, t, g)
  {
  }

  /**
   * Listing the same numerals in another order gives the same result on every
   * input: at most one alternative can match, so which is tried first is moot.
   */
  lemma AlternativeOrderIrrelevant(p: Regex, q: Regex, t: string)
    requires WellFormed(p) && WellFormed(q)
    requires p.lead == q.lead && p.follow == q.follow
    requires forall g :: g in p.alts <==> g in q.alts
    ensures MatchGroup(p, t) == MatchGroup(q, t)
  {
    var r, r' := MatchGroup(p, t), MatchGroup(q, t);
    if r.Some? {
      MatchGroupIff(p, t, r.value);
      MatchesSameShape(p, q, t, r.value);
      MatchGroupIff(q, t, r.value);
    }
    if r'.Some? {
      MatchGroupIff(q, t, r'.value);
      MatchesSameShape(p, q, t, r'.value);
      MatchGroupIff(p, t, r'.value);
    }
  }

  /**
   * Whatever a regex ending in `\s+WORD` matches, the same regex ending in
   * `\b` instead matches too, with the same group: the whitespace right after
   * the numeral is itself a word boundary.
   */
  lemma SpacesThenImpliesBoundary(p: Regex, q: Regex, t: string, g: string)
    requires WellFormed(p) && WellFormed(q)
    requires p.lead == q.lead && p.follow.SpacesThen? && q.follow == WordBoundary
    requires g in q.alts && MatchGroup(p, t) == Some(g)
    ensures MatchGroup(q, t) == Some(g)
  {
    var rest := t[|p.lead|..];
    var s := rest[LeadingSpaces(rest)..];
    assert FirstAlternative(s, p.alts, p.follow) == Some(g);
    SpacesAreBoundary(s, g, p.follow.word);
    var r := FirstAlternative(s, q.alts, q.follow);
    AltCanonical(q, g);
    AltCanonical(q, r.value);
    AltFitsExclusive(s, r.value, g, q.follow);
  }

  /** A numeral followed by whitespace and WORD is also followed by a word boundary. */
  lemma SpacesAreBoundary(s: string, g: string, w: string)
    requires AltFits(s, g, SpacesThen(w))
    ensures AltFits(s, g, WordBoundary)
  {
    var u := s[|g|..];
    assert LeadingSpaces(u) > 0;
    assert IsSpace(u[0]);
  }

  /**
   * Text made of a case variant of LEAD, a run of whitespace, one of the
   * numerals and something FOLLOW accepts matches, with that numeral as group 1;
   * what lies beyond FOLLOW is never looked at.
   */
  lemma MatchGroupOfParts(p: Regex, lead: string, ws: string, g: string, tail: string)
    requires WellFormed(p) && g in p.alts
    requires EqualIgnoringCase(lead, p.lead)
    requires |ws| >= 1 && AllSpace(ws)
    requires FollowFits(tail, p.follow)
    ensures MatchGroup(p, lead + ws + g + tail) == Some(g)
  {
    var t := lead + ws + g + tail;
    AltCanonical(p, g);
    assert Canonical(g);
    assert t[..|lead|] == lead;
    var rest := t[|lead|..];
    assert rest == ws + g + tail;
    assert rest[..|ws|] == ws;
    assert rest[|ws|] == g[0];
    LeadingSpacesUnique(rest, |ws|);
    var s := rest[|ws|..];
    assert s == g + tail;
    assert s[..|g|] == g && s[|g|..] == tail;
    assert AltFits(s, g, p.follow);
    var r := FirstAlternative(s, p.alts, p.follow);
    AltCanonical(p, r.value);
    AltFitsExclusive(s, r.value, g, p.follow);
  }

  /** After LEAD itself and a run of whitespace, the match is decided by the first alternative that fits. */
  lemma MatchGroupAfterLead(p: Regex, ws: string, s: string)
    requires |ws| >= 1 && AllSpace(ws) && (s == [] || !IsSpace(s[0]))
    ensures MatchGroup(p, p.lead + ws + s) == FirstAlternative(s, p.alts, p.follow)
  {
    var t := p.lead + ws + s;
    assert t[..|p.lead|] == p.lead;
    var rest := t[|p.lead|..];
    assert rest == ws + s;
    assert rest[..|ws|] == ws;
    if s == [] {
      assert rest == ws;
      assert LeadingSpaces(rest) <= |ws|;
    } else {
      assert rest[|ws|] == s[0];
      LeadingSpacesUnique(rest, |ws|);
    }
  }

  /**
   * `int(m.group(1))` after `re.match`, on the stripped text: the numeral the
   * user picked, or `None` when the regex does not match.
   */
  function Amount(p: Regex, text: string): (r: Option<nat>)
    requires WellFormed(p)
    ensures r.Some? ==> Decimal(r.value) in p.alts
  {
    GroupAmount(p, Strip(text))
  }

  /** `int(m.group(1))` on a match of the already stripped text `t`, or nothing without a match. */
  function GroupAmount(p: Regex, t: string): (r: Option<nat>)
    requires WellFormed(p)
    ensures r.Some? ==> Decimal(r.value) in p.alts
  {
    match MatchGroup(p, t)
    case None => None
    case Some(g) =>
      AltCanonical(p, g);
      DecimalOfIntValue(g);
      Some(IntValue(g))
  }

  /** `Amount` yields `n` exactly when the regex matches the stripped text with `str(n)` as group 1. */
  lemma AmountIff(p: Regex, text: string, n: nat)
    requires WellFormed(p)
    ensures Amount(p, text) == Some(n) <==> Matches(p, Strip(text), Decimal(n))
  {
    var t := Strip(text);
    if Amount(p, text) == Some(n) {
      var g := MatchGroup(p, t).value;
      AltCanonical(p, g);
      DecimalOfIntValue(g);
      MatchGroupIff(p, t, g);
    }
    if Matches(p, t, Decimal(n)) {
      MatchGroupIff(p, t, Decimal(n));
      IntValueOfDecimal(n);
    }
  }

  /** On text that `strip()` leaves alone, the amount is the value of the matched numeral. */
  lemma AmountOfTrimmed(p: Regex, t: string, g: string)
    requires WellFormed(p) && Trimmed(t) && MatchGroup(p, t) == Some(g)
    ensures AllDigits(g) && Amount(p, t) == Some(IntValue(g))
  {
    StripFixedIffTrimmed(t);
    MatchGroupIff(p, t, g);
    AltCanonical(p, g);
  }

  /** Whitespace around the text never changes the amount. */
  lemma AmountIgnoresPadding(p: Regex, a: string, text: string, b: string)
    requires WellFormed(p) && AllSpace(a) && AllSpace(b)
    ensures Amount(p, a + text + b) == Amount(p, text)
  {
    StripIgnoresPadding(a, text, b);
  }
}
