/**
 * The text normalisation applied to every generated question before it is
 * shown (src/App.tsx, the `map` over the reply's questions). Each regular
 * expression replacement is modelled by a function that computes the span the
 * JavaScript regex engine removes, and that span is proved to be the match the
 * engine finds: the leftmost one, extended greedily.
 */
module TextFormat {
  import opened Wrappers

  /** `\d` in a JavaScript regular expression: the ASCII digits. */
  predicate IsDigit(c: char) {
    '0' <= c <= '9'
  }

  /** `\s` in a JavaScript regular expression: ECMAScript WhiteSpace and LineTerminator. */
  predicate IsSpace(c: char) {
    || c == '\t' || c == '\n' || c == '\U{B}' || c == '\U{C}' || c == '\r' || c == ' '
    || c == '\U{A0}' || c == '\U{1680}' || ('\U{2000}' <= c <= '\U{200A}')
    || c == '\U{2028}' || c == '\U{2029}' || c == '\U{202F}' || c == '\U{205F}'
    || c == '\U{3000}' || c == '\U{FEFF}'
  }

  predicate AllDigits(s: string) {
    forall i :: 0 <= i < |s| ==> IsDigit(s[i])
  }

  predicate AllSpaces(s: string) {
    forall i :: 0 <= i < |s| ==> IsSpace(s[i])
  }

  /** Number of leading characters of `s` that satisfy `p`: what a greedy `x*` consumes. */
  function LeadingRun(s: string, p: char -> bool): (n: nat)
    ensures n <= |s|
    ensures forall i :: 0 <= i < n ==> p(s[i])
    ensures n == |s| || !p(s[n])
  {
    if s == [] || !p(s[0]) then 0 else 1 + LeadingRun(s[1..], p)
  }

  // ---------------------------------------------------------------------------
  // `^\*?\d+[:.]?\s*`, replaced by the empty string

  /** The strings the pattern `\*?\d+[:.]?\s*` matches in full. */
  ghost predicate IsNumbering(p: string) {
    exists star: string, digits: string, sep: string, ws: string ::
      && p == star + digits + sep + ws
      && (star == [] || star == "*")
      && |digits| > 0 && AllDigits(digits)
      && (sep == [] || sep == ":" || sep == ".")
      && AllSpaces(ws)
  }

  /** Length of the optional leading `\*` taken by the match. */
  function StarEnd(s: string): (a: nat)
    ensures a <= 1 && a <= |s|
  {
    if |s| > 0 && s[0] == '*' then 1 else 0
  }

  /** End of the run of digits after the optional star. */
  function DigitsEnd(s: string): (b: nat)
    ensures StarEnd(s) <= b <= |s|
  {
    StarEnd(s) + LeadingRun(s[StarEnd(s)..], IsDigit)
  }

  /** End of the optional `[:.]` after the digits. */
  function SeparatorEnd(s: string): (c: nat)
    ensures DigitsEnd(s) <= c <= DigitsEnd(s) + 1 && c <= |s|
  {
    var b := DigitsEnd(s);
    if b < |s| && (s[b] == ':' || s[b] == '.') then b + 1 else b
  }

  /** Length of the prefix of `s` that `^\*?\d+[:.]?\s*` matches, 0 when it does not match. */
  function NumberingSpan(s: string): (n: nat)
    ensures n <= |s|
  {
    if DigitsEnd(s) == StarEnd(s) then 0
    else SeparatorEnd(s) + LeadingRun(s[SeparatorEnd(s)..], IsSpace)
  }

  /** A run of `m` characters satisfying `p` is never longer than the leading run. */
  lemma RunWithinLeadingRun(t: string, p: char -> bool, m: nat)
    requires m <= |t|
    requires forall i :: 0 <= i < m ==> p(t[i])
    ensures m <= LeadingRun(t, p)
  {
  }

  /** The four parts of a match, read back from `s`. */
  lemma MatchParts(s: string, star: string, digits: string, sep: string, ws: string)
    requires |star| + |digits| + |sep| + |ws| <= |s|
    requires s[..|star| + |digits| + |sep| + |ws|] == star + digits + sep + ws
    ensures s[..|star|] == star
    ensures s[|star|..|star| + |digits|] == digits
    ensures s[|star| + |digits|..|star| + |digits| + |sep|] == sep
    ensures s[|star| + |digits| + |sep|..|star| + |digits| + |sep| + |ws|] == ws
  {
    var k := |star| + |digits| + |sep| + |ws|;
    var l1, l2, l3 := |star|, |star| + |digits|, |star| + |digits| + |sep|;
    assert s[..k][..l1] == star && s[..k][l1..l2] == digits;
    assert s[..k][l2..l3] == sep && s[..k][l3..] == ws;
  }

  /** The star of a match is there exactly when `s` starts with one. */
  lemma MatchStar(s: string, star: string)
    requires |star| < |s| && s[..|star|] == star && (star == [] || star == "*")
    requires IsDigit(s[|star|])
    ensures |star| == StarEnd(s)
  {
    if star == [] {
      assert !IsDigit('*');
    } else {
      assert s[0] == star[0];
    }
  }

  /** The digits of a match lie within the run of digits, and end with it or before a digit. */
  lemma MatchDigits(s: string, m: nat)
    requires 0 < m && StarEnd(s) + m <= |s|
    requires AllDigits(s[StarEnd(s)..StarEnd(s) + m])
    ensures StarEnd(s) + m <= DigitsEnd(s)
    ensures StarEnd(s) + m < DigitsEnd(s) ==> IsDigit(s[StarEnd(s) + m])
  {
    var a := StarEnd(s);
    assert forall i :: 0 <= i < m ==> s[a..][i] == s[a..a + m][i];
    RunWithinLeadingRun(s[a..], IsDigit, m);
    if a + m < DigitsEnd(s) {
      assert s[a..][m] == s[a + m];
    }
  }

  /** The white space of a match lies within the run of white space. */
  lemma MatchSpaces(s: string, c: nat, m: nat)
    requires c + m <= |s|
    requires AllSpaces(s[c..c + m])
    ensures m <= LeadingRun(s[c..], IsSpace)
  {
    assert forall i :: 0 <= i < m ==> s[c..][i] == s[c..c + m][i];
    RunWithinLeadingRun(s[c..], IsSpace, m);
  }

  /** A nonempty run of white space at `b` starts with a white-space character. */
  lemma SpacesStartAt(s: string, b: nat, m: nat)
    requires b + m <= |s| && AllSpaces(s[b..b + m])
    ensures m > 0 ==> IsSpace(s[b])
  {
    if m > 0 {
      assert s[b..b + m][0] == s[b];
    }
  }

  /** A match whose digits stop before a digit ends there. */
  lemma MatchStopsAtDigit(s: string, b: nat, sep: string, ws: string)
    requires b + |sep| + |ws| <= |s| && b < |s| && IsDigit(s[b])
    requires s[b..b + |sep|] == sep && s[b + |sep|..b + |sep| + |ws|] == ws
    requires sep == [] || sep == ":" || sep == "."
    requires AllSpaces(ws)
    ensures |sep| + |ws| == 0
  {
  }

  /** After the whole run of digits, separator and white space stay within the span. */
  lemma MatchAfterDigits(s: string, sep: string, ws: string)
    requires DigitsEnd(s) > StarEnd(s)
    requires DigitsEnd(s) + |sep| + |ws| <= |s|
    requires s[DigitsEnd(s)..DigitsEnd(s) + |sep|] == sep
    requires s[DigitsEnd(s) + |sep|..DigitsEnd(s) + |sep| + |ws|] == ws
    requires sep == [] || sep == ":" || sep == "."
    requires AllSpaces(ws)
    ensures DigitsEnd(s) + |sep| + |ws| <= NumberingSpan(s)
  {
    var b := DigitsEnd(s);
    var c := SeparatorEnd(s);
    var k := b + |sep| + |ws|;
    assert NumberingSpan(s) == c + LeadingRun(s[c..], IsSpace);
    if c == b + 1 && |sep| == 0 {
      // A separator follows the digits but the match left it out: no white space may follow.
      SpacesStartAt(s, b, |ws|);
    } else {
      if |sep| == 1 {
        assert s[b] == sep[0];
      }
      assert b + |sep| == c;
      MatchSpaces(s, c, |ws|);
    }
  }

  /** A match of the pattern at the start of `s` is never longer than the span removed. */
  lemma MatchWithinNumberingSpan(s: string, star: string, digits: string, sep: string, ws: string)
    requires |star| + |digits| + |sep| + |ws| <= |s|
    requires s[..|star|] == star
    requires s[|star|..|star| + |digits|] == digits
    requires s[|star| + |digits|..|star| + |digits| + |sep|] == sep
    requires s[|star| + |digits| + |sep|..|star| + |digits| + |sep| + |ws|] == ws
    requires star == [] || star == "*"
    requires |digits| > 0 && AllDigits(digits)
    requires sep == [] || sep == ":" || sep == "."
    requires AllSpaces(ws)
    ensures |star| + |digits| + |sep| + |ws| <= NumberingSpan(s)
  {
    var l2 := |star| + |digits|;
    assert s[|star|] == digits[0];
    MatchStar(s, star);
    MatchDigits(s, |digits|);
    if l2 < DigitsEnd(s) {
      MatchStopsAtDigit(s, l2, sep, ws);
      assert NumberingSpan(s) >= DigitsEnd(s);
    } else {
      MatchAfterDigits(s, sep, ws);
    }
  }

  /** The span removed is a match of the pattern, and no longer prefix of `s` is one. */
  lemma NumberingSpanIsLongestMatch(s: string)
    ensures NumberingSpan(s) > 0 ==> IsNumbering(s[..NumberingSpan(s)])
    ensures forall k :: NumberingSpan(s) < k <= |s| ==> !IsNumbering(s[..k])
  {
    var n := NumberingSpan(s);
    if n > 0 {
      NumberingSpanMatches(s);
    }
    forall k | n < k <= |s|
      ensures !IsNumbering(s[..k])
    {
      if IsNumbering(s[..k]) {
        var star, digits, sep, ws :|
          && s[..k] == star + digits + sep + ws
          && (star == [] || star == "*")
          && |digits| > 0 && AllDigits(digits)
          && (sep == [] || sep == ":" || sep == ".")
          && AllSpaces(ws);
        MatchParts(s, star, digits, sep, ws);
        MatchWithinNumberingSpan(s, star, digits, sep, ws);
      }
    }
  }

  /** A nonempty span removed is a match of the pattern. */
  lemma NumberingSpanMatches(s: string)
    requires NumberingSpan(s) > 0
    ensures IsNumbering(s[..NumberingSpan(s)])
  {
    var a, b, c, n := StarEnd(s), DigitsEnd(s), SeparatorEnd(s), NumberingSpan(s);
    assert s[..b] == s[..a] + s[a..b];
    assert s[..c] == s[..b] + s[b..c];
    assert s[..n] == s[..c] + s[c..n];
    assert AllDigits(s[a..b]) by {
      assert forall i :: 0 <= i < b - a ==> s[a..b][i] == s[a..][i];
    }
    assert AllSpaces(s[c..n]) by {
      assert forall i :: 0 <= i < n - c ==> s[c..n][i] == s[c..][i];
    }
  }

  /** `s.replace(/^\*?\d+[:.]?\s*\/, '')`. */
  function StripNumbering(s: string): (r: string)
    ensures |r| <= |s| && r == s[|s| - |r|..]
  {
    s[NumberingSpan(s)..]
  }

  // ---------------------------------------------------------------------------
  // `Question:\s*` (first occurrence) and `^Explanation:\s*`, replaced by the empty string

  const QuestionLabel: string := "Question:"
  const ExplanationLabel: string := "Explanation:"

  /** `pat` occurs in `s` at index `i`. */
  predicate OccursAt(s: string, pat: string, i: nat) {
    i + |pat| <= |s| && s[i..i + |pat|] == pat
  }

  /** The leftmost index at or after `from` where `pat` occurs in `s`. */
  function FirstOccurrence(s: string, pat: string, from: nat): (r: Option<nat>)
    decreases |s| - from
    ensures r.Some? ==> from <= r.value && OccursAt(s, pat, r.value)
    ensures r.Some? ==> forall k :: from <= k < r.value ==> !OccursAt(s, pat, k)
    ensures r.None? ==> forall k :: from <= k ==> !OccursAt(s, pat, k)
  {
    if from + |pat| > |s| then None
    else if OccursAt(s, pat, from) then Some(from)
    else FirstOccurrence(s, pat, from + 1)
  }

  /** A half-open range of indices `[start, end)`. */
  datatype Span = Span(start: nat, end: nat)

  /** The match of `/Question:\s*\/`: leftmost start, greedy white space. */
  function QuestionLabelSpan(s: string): (r: Option<Span>)
    ensures r.None? <==> forall k: nat :: !OccursAt(s, QuestionLabel, k)
    ensures r.Some? ==>
      && r.value.start + |QuestionLabel| <= r.value.end <= |s|
      && OccursAt(s, QuestionLabel, r.value.start)
      && (forall k: nat :: k < r.value.start ==> !OccursAt(s, QuestionLabel, k))
      && AllSpaces(s[r.value.start + |QuestionLabel|..r.value.end])
      && (r.value.end == |s| || !IsSpace(s[r.value.end]))
  {
    match FirstOccurrence(s, QuestionLabel, 0)
    case None => None
    case Some(i) =>
      var j := i + |QuestionLabel|;
      var w := LeadingRun(s[j..], IsSpace);
      assert forall m :: 0 <= m < w ==> s[j..j + w][m] == s[j..][m];
      Some(Span(i, j + w))
  }

  /** `s.replace(/Question:\s*\/, '')`: the first label and the white space after it go. */
  function StripQuestionLabel(s: string): (r: string)
    ensures (forall k: nat :: !OccursAt(s, QuestionLabel, k)) ==> r == s
    ensures (exists k: nat :: OccursAt(s, QuestionLabel, k)) ==> |r| <= |s| - |QuestionLabel|
  {
    match QuestionLabelSpan(s)
    case None => s
    case Some(sp) => s[..sp.start] + s[sp.end..]
  }

  /** Length of the match of `/^Explanation:\s*\/`, 0 when it does not match. */
  function ExplanationLabelSpan(s: string): (n: nat)
    ensures n <= |s|
    ensures n == 0 <==> !OccursAt(s, ExplanationLabel, 0)
    ensures n > 0 ==> n >= |ExplanationLabel| && AllSpaces(s[|ExplanationLabel|..n]) && (n == |s| || !IsSpace(s[n]))
  {
    if OccursAt(s, ExplanationLabel, 0) then
      var j := |ExplanationLabel|;
      var w := LeadingRun(s[j..], IsSpace);
      assert forall m :: 0 <= m < w ==> s[j..j + w][m] == s[j..][m];
      j + w
    else
      0
  }

  /** `s.replace(/^Explanation:\s*\/, '')`. */
  function StripExplanationLabel(s: string): (r: string)
    ensures !OccursAt(s, ExplanationLabel, 0) ==> r == s
    ensures OccursAt(s, ExplanationLabel, 0) ==> |r| <= |s| - |ExplanationLabel| && r == s[|s| - |r|..]
  {
    s[ExplanationLabelSpan(s)..]
  }

  // ---------------------------------------------------------------------------
  // `/\*\*/g`, replaced by the empty string

  /** `s` contains two adjacent asterisks. */
  predicate HasDoubleStar(s: string) {
    |s| >= 2 && ((s[0] == '*' && s[1] == '*') || HasDoubleStar(s[1..]))
  }

  /** `s` without any asterisk. */
  function Unstarred(s: string): string {
    if s == [] then [] else (if s[0] == '*' then [] else [s[0]]) + Unstarred(s[1..])
  }

  /**
   * `s.replace(/\*\*\/g, '')`: the matches are found left to right without
   * overlapping, so in "***" the first two asterisks go and the third stays.
   */
  function RemoveBold(s: string): (r: string)
    ensures !HasDoubleStar(r)
    ensures Unstarred(r) == Unstarred(s)
    ensures |r| <= |s| && (|s| - |r|) % 2 == 0
    ensures !HasDoubleStar(s) ==> r == s
    ensures |s| > 0 && s[0] != '*' ==> |r| > 0 && r[0] == s[0]
  {
    if |s| >= 2 && s[0] == '*' && s[1] == '*' then
      assert s[1..][1..] == s[2..];
      RemoveBold(s[2..])
    else if s == [] then
      []
    else
      var rest := RemoveBold(s[1..]);
      assert ([s[0]] + rest)[1..] == rest;
      [s[0]] + rest
  }

  /** Matches do not overlap: three adjacent asterisks lose one pair and keep one asterisk. */
  lemma RemoveBoldTripleStar()
    ensures RemoveBold("a***b") == "a*b"
  {
  }

  predicate IsStar(c: char) {
    c == '*'
  }

  /**
   * An independent description of what `/\*\*\/g` leaves: each maximal run of
   * k asterisks shrinks to k % 2 asterisks in place, and every other
   * character is kept.
   */
  function HalveStarRuns(s: string): string
    decreases |s|
  {
    if s == [] then []
    else if s[0] != '*' then [s[0]] + HalveStarRuns(s[1..])
    else
      var k := LeadingRun(s, IsStar);
      OddMark(k) + HalveStarRuns(s[k..])
  }

  /** What is left of a run of `k` asterisks: one when `k` is odd, none when even. */
  function OddMark(k: nat): string {
    if k % 2 == 1 then "*" else ""
  }

  /** `LeadingRun` is determined by its contract. */
  lemma {:induction false} LeadingRunUnique(s: string, p: char -> bool, n: nat)
    requires n <= |s|
    requires forall i :: 0 <= i < n ==> p(s[i])
    requires n == |s| || !p(s[n])
    ensures LeadingRun(s, p) == n
  {
    if n > 0 {
      assert forall i :: 0 <= i < n - 1 ==> s[1..][i] == s[i + 1];
      LeadingRunUnique(s[1..], p, n - 1);
    }
  }

  /** Dropping `j` characters of a leading run shortens it by `j`. */
  lemma LeadingRunDrop(s: string, p: char -> bool, j: nat)
    requires j <= LeadingRun(s, p)
    ensures LeadingRun(s[j..], p) == LeadingRun(s, p) - j
  {
    var n := LeadingRun(s, p);
    assert forall i :: 0 <= i < n - j ==> s[j..][i] == s[j + i];
    LeadingRunUnique(s[j..], p, n - j);
  }

  /** A run that starts with a pair halves like the run without that pair. */
  lemma HalvePair(s: string)
    requires |s| >= 2 && s[0] == '*' && s[1] == '*'
    ensures HalveStarRuns(s) == HalveStarRuns(s[2..])
  {
    var k := LeadingRun(s, IsStar);
    assert IsStar(s[0]) && IsStar(s[1]);
    LeadingRunDrop(s, IsStar, 2);
    HalveRunAt(s, k);
    if k > 2 {
      HalveLongerRun(s, k);
    } else {
      assert s[2..] == s[k..];
    }
  }

  /** A run longer than a pair, less that pair, leaves the same mark before the same rest. */
  lemma HalveLongerRun(s: string, k: nat)
    requires 2 < k <= |s| && LeadingRun(s[2..], IsStar) == k - 2
    ensures HalveStarRuns(s[2..]) == OddMark(k) + HalveStarRuns(s[k..])
  {
    HalveRunAt(s[2..], k - 2);
    assert s[2..][k - 2..] == s[k..];
    assert OddMark(k - 2) == OddMark(k);
  }

  /** Unfolding at a run of `n > 0` asterisks. */
  lemma HalveRunAt(t: string, n: nat)
    requires n > 0 && LeadingRun(t, IsStar) == n
    ensures HalveStarRuns(t) == OddMark(n) + HalveStarRuns(t[n..])
  {
    assert IsStar(t[0]);
  }

  /** A lone asterisk stays. */
  lemma HalveLoneStar(s: string)
    requires |s| >= 1 && s[0] == '*' && (|s| == 1 || s[1] != '*')
    ensures HalveStarRuns(s) == "*" + HalveStarRuns(s[1..])
  {
    LeadingRunUnique(s, IsStar, 1);
  }

  /** `/\*\*\/g` removes all of each even run of asterisks and all but one of each odd run. */
  lemma {:induction false} RemoveBoldHalvesStarRuns(s: string)
    ensures RemoveBold(s) == HalveStarRuns(s)
    decreases |s|
  {
    if s == [] {
    } else if s[0] != '*' {
      RemoveBoldHalvesStarRuns(s[1..]);
    } else if |s| >= 2 && s[1] == '*' {
      HalvePair(s);
      RemoveBoldHalvesStarRuns(s[2..]);
    } else {
      HalveLoneStar(s);
      RemoveBoldHalvesStarRuns(s[1..]);
    }
  }

  /** A generated question's text, as shown: numbering, then the label, then bold markers removed. */
  function FormatPrompt(s: string): (r: string)
    ensures !HasDoubleStar(r)
  {
    RemoveBold(StripQuestionLabel(StripNumbering(s)))
  }

  /** Dropping a prefix cannot create two adjacent asterisks. */
  lemma {:induction false} SuffixKeepsNoDoubleStar(t: string, k: nat)
    requires k <= |t| && !HasDoubleStar(t)
    ensures !HasDoubleStar(t[k..])
  {
    if k > 0 {
      assert t[k..] == t[1..][k - 1..];
      SuffixKeepsNoDoubleStar(t[1..], k - 1);
    }
  }

  /** A generated explanation, as shown: bold markers removed, then the leading label. */
  function FormatExplanation(s: string): (r: string)
    ensures !HasDoubleStar(r)
  {
    var t := RemoveBold(s);
    SuffixKeepsNoDoubleStar(t, ExplanationLabelSpan(t));
    StripExplanationLabel(t)
  }
}
