/** The two string operations of the chart transforms: the `'Unknown'` fallback and `String.prototype.replace`. */
module Text {
  import opened Wrappers

  const Unknown: string := "Unknown"

  /**
   * `value || 'Unknown'`: a missing value (`null`, `undefined`) and the empty
   * string are falsy and become `'Unknown'`; any other string is kept.
   */
  function OrUnknown(v: Option<string>): (r: string)
    ensures r != ""
    ensures v.Some? && v.value != "" ==> r == v.value
    ensures v.None? || v.value == "" ==> r == Unknown
  {
    match v
    case Some(s) => if s != "" then s else Unknown
    case None => Unknown
  }

  /** `pat` occurs in `s` starting at index `k`. */
  predicate OccursAt(s: string, pat: string, k: nat)
  {
    k + |pat| <= |s| && s[k..k + |pat|] == pat
  }

  /**
   * `s.replace(pat, rep)` with a string pattern: the first occurrence of
   * `pat`, scanning left to right, is replaced; without one `s` is unchanged.
   */
  function ReplaceFirst(s: string, pat: string, rep: string): (r: string)
    requires |pat| > 0
    ensures r == s || |r| == |s| - |pat| + |rep|
    ensures r != s ==> exists k :: OccursAt(s, pat, k)
    decreases |s|
  {
    if |s| < |pat| then s
    else if s[..|pat|] == pat then
      assert OccursAt(s, pat, 0);
      rep + s[|pat|..]
    else
      var rest := ReplaceFirst(s[1..], pat, rep);
      assert s == [s[0]] + s[1..];
      OccursLater(s, pat);
      [s[0]] + rest
  }

  /** An occurrence after the first character is an occurrence in the whole string. */
  lemma OccursLater(s: string, pat: string)
    requires |s| > 0
    ensures (exists k :: OccursAt(s[1..], pat, k)) ==> exists k :: OccursAt(s, pat, k)
  {
    if k :| OccursAt(s[1..], pat, k) {
      OccursShift(s, pat, k);
    }
  }

  /** Dropping the first character shifts every occurrence one place left. */
  lemma OccursShift(s: string, pat: string, j: nat)
    requires |s| > 0
    ensures OccursAt(s[1..], pat, j) <==> OccursAt(s, pat, j + 1)
  {
    if j + 1 + |pat| <= |s| {
      assert s[1..][j..j + |pat|] == s[j + 1..j + 1 + |pat|];
    }
  }

  /** With its first occurrence at `k`, the pattern is spliced out there and the replacement put in its place. */
  lemma {:induction false} ReplaceFirstAt(s: string, pat: string, rep: string, k: nat)
    requires |pat| > 0 && OccursAt(s, pat, k)
    requires forall j :: 0 <= j < k ==> !OccursAt(s, pat, j)
    ensures ReplaceFirst(s, pat, rep) == s[..k] + rep + s[k + |pat|..]
    decreases k
  {
    if k == 0 {
      assert s[..|pat|] == pat;
    } else {
      var t := s[1..];
      SkipFirst(s, pat, rep);
      NoEarlierInTail(s, pat, k);
      OccursShift(s, pat, k - 1);
      ReplaceFirstAt(t, pat, rep, k - 1);
      SpliceCons(s, rep, k, k + |pat|);
    }
  }

  /** Without a match at the front, the first character is kept and the search goes on after it. */
  lemma SkipFirst(s: string, pat: string, rep: string)
    requires |pat| > 0 && |s| >= |pat| && !OccursAt(s, pat, 0)
    ensures ReplaceFirst(s, pat, rep) == [s[0]] + ReplaceFirst(s[1..], pat, rep)
  {
  }

  /** No occurrence before `k` in `s` means none before `k - 1` after its first character. */
  lemma NoEarlierInTail(s: string, pat: string, k: nat)
    requires 0 < k <= |s|
    requires forall j :: 0 <= j < k ==> !OccursAt(s, pat, j)
    ensures forall j :: 0 <= j < k - 1 ==> !OccursAt(s[1..], pat, j)
  {
    forall j | 0 <= j < k - 1 ensures !OccursAt(s[1..], pat, j) {
      OccursShift(s, pat, j);
    }
  }

  /** Splicing `rep` into `s` at `[i, j)` after its first character is splicing it into `s` one place later. */
  lemma SpliceCons(s: string, rep: string, i: nat, j: nat)
    requires 0 < i <= j <= |s|
    ensures [s[0]] + (s[1..][..i - 1] + rep + s[1..][j - 1..]) == s[..i] + rep + s[j..]
  {
    assert s[..i] == [s[0]] + s[1..][..i - 1];
    assert s[1..][j - 1..] == s[j..];
  }
}
