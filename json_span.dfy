/**
 * Locating the JSON body in the service's reply: `re.search(r'\[.*\]', text, re.DOTALL).group()`.
 * With DOTALL, `.` matches every character, so a match is any span that opens with `[`
 * and closes with `]`; the search takes the leftmost start and, `.*` being greedy, the longest span there.
 */
module JsonSpan {
  import opened Wrappers

  /** The first position of `c` in `s`. */
  function FirstIndexOf(s: string, c: char): (r: Option<nat>)
    ensures r.Some? ==> r.value < |s| && s[r.value] == c && forall k :: 0 <= k < r.value ==> s[k] != c
    ensures r.None? ==> forall k :: 0 <= k < |s| ==> s[k] != c
  {
    if |s| == 0 then None
    else if s[0] == c then Some(0)
    else
      match FirstIndexOf(s[1..], c)
      case None => None
      case Some(i) => Some(i + 1)
  }

  /** The last position of `c` in `s`. */
  function LastIndexOf(s: string, c: char): (r: Option<nat>)
    ensures r.Some? ==> r.value < |s| && s[r.value] == c && forall k :: r.value < k < |s| ==> s[k] != c
    ensures r.None? ==> forall k :: 0 <= k < |s| ==> s[k] != c
  {
    if |s| == 0 then None
    else if s[|s| - 1] == c then Some(|s| - 1)
    else LastIndexOf(s[..|s| - 1], c)
  }

  /** The span from the first `[` to the last `]` of `text`, or nothing when no `]` follows the first `[`. */
  function ExtractArray(text: string): (r: Option<string>)
    ensures r.Some? ==> |r.value| >= 2 && r.value[0] == '[' && r.value[|r.value| - 1] == ']'
    ensures r.Some? ==> |r.value| <= |text|
  {
    match FirstIndexOf(text, '[')
    case None => None
    case Some(i) =>
      match LastIndexOf(text, ']')
      case None => None
      case Some(j) => if i < j then Some(text[i..j + 1]) else None
  }

  /** `text[i..j]` is a match of the pattern `\[.*\]` under DOTALL. */
  ghost predicate SpanMatches(text: string, i: int, j: int)
  {
    0 <= i && i + 2 <= j <= |text| && text[i] == '[' && text[j - 1] == ']'
  }

  /** `text[i..j]` is what a leftmost, greedy search returns: no match starts earlier, none at `i` ends later. */
  ghost predicate IsSearchResult(text: string, i: int, j: int)
  {
    && SpanMatches(text, i, j)
    && (forall i', j' :: 0 <= i' < i ==> !SpanMatches(text, i', j'))
    && (forall j' :: j < j' ==> !SpanMatches(text, i, j'))
  }

  /**
   * Extraction succeeds exactly when some `]` appears after some `[` (equivalently, after the
   * first one), and it then returns the regular-expression search's result: the leftmost,
   * longest span opening with `[` and closing with `]`.
   */
  lemma ExtractArrayIsSearch(text: string)
    ensures ExtractArray(text).Some? <==>
      exists i, j :: 0 <= i < j < |text| && text[i] == '[' && text[j] == ']'
    ensures ExtractArray(text).Some? ==>
      exists i, j :: IsSearchResult(text, i, j) && ExtractArray(text).value == text[i..j]
    ensures ExtractArray(text).Some? ==>
      var r := ExtractArray(text).value;
      |r| >= 2 && r[0] == '[' && r[|r| - 1] == ']'
  {
  }

  /** The search result is unique: when two spans both qualify, they coincide. */
  lemma SearchResultUnique(text: string, i: int, j: int, i': int, j': int)
    requires IsSearchResult(text, i, j) && IsSearchResult(text, i', j')
    ensures i == i' && j == j'
  {
  }

  /** A search result, and no search at all, are what extraction reports. */
  lemma {:induction false} ExtractArrayReportsSearch(text: string)
    ensures (forall i, j :: !SpanMatches(text, i, j)) ==> ExtractArray(text).None?
    ensures forall i, j :: IsSearchResult(text, i, j) ==> ExtractArray(text) == Some(text[i..j])
  {
    ExtractArrayIsSearch(text);
    if ExtractArray(text).Some? {
      var i0, j0 :| IsSearchResult(text, i0, j0) && ExtractArray(text).value == text[i0..j0];
      forall i, j | IsSearchResult(text, i, j) ensures ExtractArray(text) == Some(text[i..j]) {
        SearchResultUnique(text, i, j, i0, j0);
      }
    }
  }

  /** Text around the array is ignored: prose before the first `[` and after the last `]` is dropped. */
  lemma {:induction false} ProseIgnored(before: string, body: string, after: string)
    requires |body| >= 2 && body[0] == '[' && body[|body| - 1] == ']'
    requires forall k :: 0 <= k < |before| ==> before[k] != '['
    requires forall k :: 0 <= k < |after| ==> after[k] != ']'
    ensures ExtractArray(before + body + after) == Some(body)
  {
    var text := before + body + after;
    var i, j := |before|, |before| + |body|;
    assert text[i..j] == body;
    assert text[i] == '[' && text[j - 1] == ']';
    forall k | 0 <= k < i ensures text[k] != '[' { assert text[k] == before[k]; }
    forall k | j <= k < |text| ensures text[k] != ']' { assert text[k] == after[k - j]; }
    ExtractArrayIsSearch(text);
    var i', j' :| IsSearchResult(text, i', j') && ExtractArray(text).value == text[i'..j'];
    assert IsSearchResult(text, i, j);
    SearchResultUnique(text, i, j, i', j');
  }
}
