/**
 * The two Python string operations the form parser relies on:
 * the substring test `pat in s` and `s.replace(pat, '')`.
 */
module PyStr {

  predicate StartsWith(s: string, pat: string) {
    |pat| <= |s| && s[..|pat|] == pat
  }

  /** `pat in s`: the empty pattern occurs in every string. */
  predicate Contains(s: string, pat: string)
    decreases |s|
  {
    StartsWith(s, pat) || (|s| > 0 && Contains(s[1..], pat))
  }

  /** Reference definition of an occurrence: `pat` sits at index `i` of `s`. */
  ghost predicate OccursAt(s: string, pat: string, i: int) {
    0 <= i && i + |pat| <= |s| && s[i..i + |pat|] == pat
  }

  /** An occurrence at any index makes `Contains` hold. */
  lemma {:induction false} OccursContains(s: string, pat: string, i: int)
    requires OccursAt(s, pat, i)
    ensures Contains(s, pat)
    decreases i
  {
    if i > 0 {
      assert s[1..][i - 1..i - 1 + |pat|] == s[i..i + |pat|];
      OccursContains(s[1..], pat, i - 1);
    }
  }

  /** `Contains` agrees with the positional definition of an occurrence. */
  lemma {:induction false} ContainsIffOccurs(s: string, pat: string)
    ensures Contains(s, pat) <==> exists i :: OccursAt(s, pat, i)
    decreases |s|
  {
    forall i | OccursAt(s, pat, i) ensures Contains(s, pat) {
      OccursContains(s, pat, i);
    }
    if StartsWith(s, pat) {
      assert OccursAt(s, pat, 0);
    } else if Contains(s, pat) {
      ContainsIffOccurs(s[1..], pat);
      var i :| OccursAt(s[1..], pat, i);
      assert s[i + 1..i + 1 + |pat|] == s[1..][i..i + |pat|];
      assert OccursAt(s, pat, i + 1);
    }
  }

  /**
   * `s.replace(pat, '')` for a non-empty `pat`: scanning left to right, every
   * occurrence that starts at the scan position is dropped and the scan resumes
   * after it; other characters are kept. Characters are only deleted, never
   * added or changed.
   */
  function RemoveAll(s: string, pat: string): (r: string)
    requires |pat| > 0
    ensures |r| <= |s|
    ensures multiset(r) <= multiset(s)
    decreases |s|
  {
    if |s| == 0 then ""
    else if StartsWith(s, pat) then
      assert s == s[..|pat|] + s[|pat|..];
      RemoveAll(s[|pat|..], pat)
    else
      assert s == [s[0]] + s[1..];
      [s[0]] + RemoveAll(s[1..], pat)
  }

  /** When `pat` occurs, at least one whole occurrence is removed. */
  lemma {:induction false} RemoveAllShrinks(s: string, pat: string)
    requires |pat| > 0 && Contains(s, pat)
    ensures |RemoveAll(s, pat)| <= |s| - |pat|
    decreases |s|
  {
    if !StartsWith(s, pat) {
      RemoveAllShrinks(s[1..], pat);
    }
  }

  /** Removing a pattern leaves a string unchanged exactly when the pattern does not occur in it. */
  lemma {:induction false} RemoveAllUnchangedIff(s: string, pat: string)
    requires |pat| > 0
    ensures RemoveAll(s, pat) == s <==> !Contains(s, pat)
    decreases |s|
  {
    if Contains(s, pat) {
      RemoveAllShrinks(s, pat);
    } else if |s| > 0 {
      RemoveAllUnchangedIff(s[1..], pat);
    }
  }
}
