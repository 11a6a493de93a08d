/** The two string operations of Python that the core uses: `a in b` and `str.replace(old, "")`. */
module Strings {

  /** `needle` occurs in `hay` starting at offset `i`. */
  predicate OccursAt(needle: string, hay: string, i: nat)
  {
    i + |needle| <= |hay| && hay[i..i + |needle|] == needle
  }

  /** Python's `needle in hay` on strings: some offset of `hay` holds `needle`. */
  predicate Contains(hay: string, needle: string)
    ensures needle <= hay ==> Contains(hay, needle)
    ensures Contains(hay, needle) ==> |needle| <= |hay|
  {
    assert needle <= hay ==> OccursAt(needle, hay, 0);
    exists i: nat | i <= |hay| :: OccursAt(needle, hay, i)
  }

  /** What is in the rest of a string is in the string. */
  lemma TailContained(hay: string, needle: string)
    requires |hay| > 0 && Contains(hay[1..], needle)
    ensures Contains(hay, needle)
  {
    var i: nat :| i <= |hay[1..]| && OccursAt(needle, hay[1..], i);
    assert hay[1..][i..i + |needle|] == hay[i + 1..i + 1 + |needle|];
    assert OccursAt(needle, hay, i + 1);
  }

  /** Unless it is a prefix, `needle` is in `hay` only if it is in the rest of `hay`. */
  lemma {:induction false} ContainsUnfold(hay: string, needle: string)
    requires |hay| > 0 && !(needle <= hay) && Contains(hay, needle)
    ensures Contains(hay[1..], needle)
  {
    var i: nat :| i <= |hay| && OccursAt(needle, hay, i);
    assert i != 0;
    assert hay[1..][i - 1..i - 1 + |needle|] == hay[i..i + |needle|];
    assert OccursAt(needle, hay[1..], i - 1);
  }

  /** A string whose first character does not occur in `hay` is not in `hay`. */
  lemma FirstCharAbsent(hay: string, needle: string)
    requires |needle| > 0 && needle[0] !in hay
    ensures !Contains(hay, needle)
  {
  }

  /** A string longer than `hay` is not in `hay`. */
  lemma LongerAbsent(hay: string, needle: string)
    requires |needle| > |hay|
    ensures !Contains(hay, needle)
  {
  }

  /**
   * Python's `s.replace(pat, "")`: scanning from the left, every non-overlapping
   * occurrence of `pat` is dropped; text that only becomes `pat` after a removal stays.
   */
  function RemoveAll(s: string, pat: string): (r: string)
    requires |pat| > 0
    ensures |r| <= |s|
    decreases |s|
  {
    if |s| == 0 then []
    else if pat <= s then RemoveAll(s[|pat|..], pat)
    else [s[0]] + RemoveAll(s[1..], pat)
  }

  /** A string that does not contain `pat` comes back unchanged. */
  lemma {:induction false} RemoveAllAbsent(s: string, pat: string)
    requires |pat| > 0
    requires !Contains(s, pat)
    ensures RemoveAll(s, pat) == s
    decreases |s|
  {
    if |s| > 0 {
      assert !(pat <= s);
      assert !Contains(s[1..], pat) by {
        if Contains(s[1..], pat) { TailContained(s, pat); }
      }
      RemoveAllAbsent(s[1..], pat);
      assert [s[0]] + s[1..] == s;
    }
  }

  /** A leading occurrence is dropped and the scan goes on after it. */
  lemma LeadingRemoved(pat: string, s: string)
    requires |pat| > 0
    ensures RemoveAll(pat + s, pat) == RemoveAll(s, pat)
  {
  }
}
