/** Case-insensitive substring search, as used to recognise the summary and
    legend rows of the spreadsheet. */
module CaseFold {

  /** The marker texts of budget_streamlit.py:31, matched ignoring case. */
  const TotalMarker: string := "Total"
  const LegendMarker: string := "Code couleur"

  /** Lower-cases ASCII capitals and leaves every other character alone. For
      the letters of the two markers this is exactly the case-insensitive
      comparison of a regular expression. */
  function Fold(c: char): char {
    if 'A' <= c <= 'Z' then (c as int - 'A' as int + 'a' as int) as char else c
  }

  /** `pat` occurs in `s` at offset `i`, ignoring case. */
  predicate MatchesAt(s: string, pat: string, i: nat)
    requires i + |pat| <= |s|
  {
    forall k :: 0 <= k < |pat| ==> Fold(s[i + k]) == Fold(pat[k])
  }

  /** `pat` occurs somewhere in `s`, ignoring case. */
  predicate ContainsIgnoringCase(s: string, pat: string) {
    exists i: nat :: i + |pat| <= |s| && MatchesAt(s, pat, i)
  }

  /** The name of a summary ("Total ...") or legend ("Code couleur") row. */
  predicate IsMarker(s: string) {
    ContainsIgnoringCase(s, TotalMarker) || ContainsIgnoringCase(s, LegendMarker)
  }

  /** Text around an occurrence does not hide it. */
  lemma {:induction false} ContainsSurvivesAffixes(prefix: string, s: string, suffix: string, pat: string)
    requires ContainsIgnoringCase(s, pat)
    ensures ContainsIgnoringCase(prefix + s + suffix, pat)
  {
    var t := prefix + s + suffix;
    var i: nat :| i + |pat| <= |s| && MatchesAt(s, pat, i);
    forall k | 0 <= k < |pat| ensures Fold(t[|prefix| + i + k]) == Fold(pat[k]) {
      assert t[|prefix| + i + k] == s[i + k];
    }
    assert MatchesAt(t, pat, |prefix| + i);
  }

  /** A text that contains a marker keeps it whatever is written around it:
      "Sous-TOTAL", "Total Individuel" and "total" are all markers. */
  lemma {:induction false} MarkerSurvivesAffixes(prefix: string, s: string, suffix: string)
    requires IsMarker(s)
    ensures IsMarker(prefix + s + suffix)
  {
    if ContainsIgnoringCase(s, TotalMarker) {
      ContainsSurvivesAffixes(prefix, s, suffix, TotalMarker);
    } else {
      ContainsSurvivesAffixes(prefix, s, suffix, LegendMarker);
    }
  }
}
