/**
 * Name extraction: `extract_name` searches the resume text with the regular
 * expression `[A-Z][a-z]+(?:\s[A-Z][a-z]+)*` and returns the matched text, or
 * the placeholder "Unknown" when the search finds nothing.
 *
 * The search is modelled directly: the leftmost position where a word can
 * start, then the greedy extension word by word. Its meaning is stated
 * separately, by a predicate saying which strings the pattern matches
 * (IsNameRun) and by the search semantics of `re.search` (IsSearchResult).
 */
module Names {
  import opened Chars
  import opened Wrappers

  const UNKNOWN: string := "Unknown"

  /** Text the PDF reader returns for a document without readable text. */
  const UNREADABLE_PLACEHOLDER: string := "No readable text found."

  /** An upper-case letter followed by a lower-case one starts at `i`:
      the only places where the pattern can begin to match. */
  predicate IsWordStart(s: string, i: int)
  {
    0 <= i && i + 1 < |s| && IsUpper(s[i]) && IsLower(s[i + 1])
  }

  /**
   * The strings the whole pattern matches, i.e. the language
   * W (S W)* with W = one upper-case letter then one or more lower-case ones
   * and S = one whitespace character, written as conditions on neighbours:
   * it starts upper-case and ends lower-case, uses only these three classes,
   * every whitespace is followed by an upper-case letter, and every upper-case
   * letter begins the string or follows a whitespace and is followed by a
   * lower-case letter.
   */
  ghost predicate IsNameRun(w: string)
  {
    && 2 <= |w|
    && IsUpper(w[0])
    && IsLower(w[|w| - 1])
    && forall k :: 0 <= k < |w| ==> FitsAt(w, k)
  }

  /** The neighbour conditions of IsNameRun at position `k`. */
  predicate FitsAt(w: string, k: int)
    requires 0 <= k < |w|
  {
    && (IsUpper(w[k]) || IsLower(w[k]) || IsSpace(w[k]))
    && (IsSpace(w[k]) ==> k + 1 < |w| && IsUpper(w[k + 1]))
    && (IsUpper(w[k]) ==> (k == 0 || IsSpace(w[k - 1])) && k + 1 < |w| && IsLower(w[k + 1]))
  }

  /** The pattern matches exactly the text `s[b..e]`. */
  ghost predicate MatchesAt(s: string, b: int, e: int)
  {
    0 <= b <= e <= |s| && IsNameRun(s[b..e])
  }

  /** What `re.search` reports for this pattern: a match at the leftmost
      position where any match exists, and there the longest one (for this
      pattern the greedy match is the longest). */
  ghost predicate IsSearchResult(s: string, b: int, e: int)
  {
    && MatchesAt(s, b, e)
    && (forall b', e' :: MatchesAt(s, b', e') ==> b <= b')
    && (forall e' :: MatchesAt(s, b, e') ==> e' <= e)
  }

  /** End of the run of lower-case letters that begins at `i` (`[a-z]*`, greedy). */
  function LowerRunEnd(s: string, i: nat): (e: nat)
    requires i <= |s|
    ensures i <= e <= |s|
    ensures forall k :: i <= k < e ==> IsLower(s[k])
    ensures e == |s| || !IsLower(s[e])
    decreases |s| - i
  {
    if i < |s| && IsLower(s[i]) then LowerRunEnd(s, i + 1) else i
  }

  /** The leftmost word start at or after `from`, if there is one. */
  function LeftmostWordStart(s: string, from: nat): (r: Option<nat>)
    ensures r.None? <==> forall i :: from <= i ==> !IsWordStart(s, i)
    ensures r.Some? ==> from <= r.value && IsWordStart(s, r.value)
    ensures r.Some? ==> forall i :: from <= i < r.value ==> !IsWordStart(s, i)
    decreases |s| - from
  {
    if |s| <= from + 1 then None
    else if IsWordStart(s, from) then Some(from)
    else LeftmostWordStart(s, from + 1)
  }

  /** A word `s[i..w]`, one whitespace, then a run: together a run. */
  lemma ExtendRun(s: string, i: nat, w: nat, e: nat)
    requires i + 2 <= w < e <= |s|
    requires IsUpper(s[i]) && forall k :: i < k < w ==> IsLower(s[k])
    requires IsSpace(s[w])
    requires IsNameRun(s[w + 1..e])
    ensures IsNameRun(s[i..e])
  {
    var run, tail := s[i..e], s[w + 1..e];
    var d := w - i + 1;
    forall k | 0 <= k < |run| ensures FitsAt(run, k) {
      assert run[k] == s[i + k];
      if d < k {
        assert FitsAt(tail, k - d);
        assert tail[k - d] == run[k];
        assert k + 1 < |run| ==> tail[k - d + 1] == run[k + 1];
        assert tail[k - d - 1] == run[k - 1];
      } else if d == k {
        assert FitsAt(tail, 0);
        assert tail[0] == run[k] && tail[1] == run[k + 1];
      } else if k < d - 1 {
        assert run[k + 1] == s[i + k + 1];
      } else {
        assert run[k + 1] == s[i + k + 1];
      }
    }
  }

  /** A single word `s[i..w]` is a run. */
  lemma WordIsRun(s: string, i: nat, w: nat)
    requires i + 2 <= w <= |s|
    requires IsUpper(s[i]) && forall k :: i < k < w ==> IsLower(s[k])
    ensures IsNameRun(s[i..w])
  {
    var run := s[i..w];
    forall k | 0 <= k < |run| ensures FitsAt(run, k) {
      assert run[k] == s[i + k];
      assert k + 1 < |run| ==> run[k + 1] == s[i + k + 1];
    }
  }

  /**
   * End of the greedy match that starts at the word start `i`: one word, then
   * as long as the text goes on with a whitespace and another word, that too.
   * The result is a run of the pattern, and it cannot be extended: the next
   * character is not lower-case, and no whitespace-and-word follows.
   */
  function RunEnd(s: string, i: nat): (e: nat)
    requires IsWordStart(s, i)
    ensures i + 2 <= e <= |s|
    ensures IsNameRun(s[i..e])
    ensures e == |s| || !IsLower(s[e])
    ensures !(e < |s| && IsSpace(s[e]) && IsWordStart(s, e + 1))
    decreases |s| - i
  {
    var w := LowerRunEnd(s, i + 1);
    if w < |s| && IsSpace(s[w]) && IsWordStart(s, w + 1) then
      var e := RunEnd(s, w + 1);
      ExtendRun(s, i, w, e);
      e
    else
      WordIsRun(s, i, w);
      w
  }

  /** The span `re.search` finds, as a pair of positions. */
  function FindName(s: string): (r: Option<(nat, nat)>)
    ensures r.None? <==> forall i :: !IsWordStart(s, i)
  {
    match LeftmostWordStart(s, 0)
    case None => None
    case Some(b) => Some((b, RunEnd(s, b)))
  }

  /** `extract_name`: the matched text, or "Unknown". */
  function ExtractName(s: string): (name: string)
    ensures name == UNKNOWN || IsNameRun(name)
  {
    match FindName(s)
    case None => UNKNOWN
    case Some((b, e)) => s[b..e]
  }

  /** Every match begins at a word start. */
  lemma MatchStartsAtWordStart(s: string, b: int, e: int)
    requires MatchesAt(s, b, e)
    ensures IsWordStart(s, b)
  {
    var run := s[b..e];
    assert FitsAt(run, 0);
    assert run[0] == s[b] && run[1] == s[b + 1];
  }

  /** Where a match has a lower-case letter followed by something that is
      not, the match goes on with a whitespace and a new word. */
  lemma RunGoesOn(s: string, b: int, e': int, p: int)
    requires MatchesAt(s, b, e')
    requires b < p <= |s|
    requires IsLower(s[p - 1]) && (p == |s| || !IsLower(s[p]))
    ensures p < e' ==> IsSpace(s[p]) && IsWordStart(s, p + 1)
  {
    if p < e' {
      var run, k := s[b..e'], p - b;
      assert run[k] == s[p] && run[k - 1] == s[p - 1];
      assert FitsAt(run, k);
      assert IsSpace(run[k]);
      assert FitsAt(run, k + 1);
      assert run[k + 1] == s[p + 1] && run[k + 2] == s[p + 2];
    }
  }

  /** No match extends past the greedy end: the greedy match is the longest. */
  lemma GreedyIsLongest(s: string, b: nat, e': int)
    requires IsWordStart(s, b)
    requires MatchesAt(s, b, e')
    ensures e' <= RunEnd(s, b)
  {
    var e := RunEnd(s, b);
    assert IsLower(s[e - 1]) by {
      assert s[b..e][e - b - 1] == s[e - 1];
    }
    RunGoesOn(s, b, e', e);
  }

  /** FindName is the search of `re.search`: it reports nothing exactly when
      the pattern matches nowhere, and otherwise exactly the leftmost-longest
      match. */
  lemma {:induction false} FindNameIsSearch(s: string)
    ensures FindName(s).None? <==> forall b, e :: !MatchesAt(s, b, e)
    ensures forall b, e :: FindName(s) == Some((b, e)) <==> IsSearchResult(s, b, e)
  {
    if FindName(s).None? {
      forall b, e | MatchesAt(s, b, e) ensures false {
        MatchStartsAtWordStart(s, b, e);
      }
    } else {
      var b0 := LeftmostWordStart(s, 0).value;
      var e0 := RunEnd(s, b0);
      forall b', e' | MatchesAt(s, b', e') ensures b0 <= b' {
        MatchStartsAtWordStart(s, b', e');
      }
      forall e' | MatchesAt(s, b0, e') ensures e' <= e0 {
        GreedyIsLongest(s, b0, e');
      }
      assert IsSearchResult(s, b0, e0);
      forall b, e | IsSearchResult(s, b, e) ensures b == b0 && e == e0 {
      }
    }
  }

  /** What `extract_name` returns: "Unknown" when no word starts anywhere,
      otherwise the text of the leftmost-longest match. */
  lemma ExtractNameMeaning(s: string)
    ensures (forall i :: !IsWordStart(s, i)) ==> ExtractName(s) == UNKNOWN
    ensures forall b, e :: IsSearchResult(s, b, e) ==> ExtractName(s) == s[b..e]
  {
    FindNameIsSearch(s);
  }

  /** The placeholder is also a possible match, so "Unknown" does not by
      itself mean that nothing was found. */
  lemma UnknownIsAlsoAName()
    ensures IsWordStart(UNKNOWN, 0)
    ensures ExtractName(UNKNOWN) == UNKNOWN
  {
    var e := RunEnd(UNKNOWN, 0);
    assert LowerRunEnd(UNKNOWN, 1) == 7;
  }

  /** An unreadable PDF yields the name "No". */
  lemma PlaceholderName()
    ensures ExtractName(UNREADABLE_PLACEHOLDER) == "No"
  {
    var s := UNREADABLE_PLACEHOLDER;
    assert IsWordStart(s, 0);
    assert LowerRunEnd(s, 1) == 2;
    assert !IsWordStart(s, 3);
    assert RunEnd(s, 0) == 2;
  }

  /** No word boundary is needed: the match may begin inside a word. */
  lemma MatchInsideWord()
    ensures ExtractName("iPhone") == "Phone"
  {
    var s := "iPhone";
    assert !IsWordStart(s, 0) && IsWordStart(s, 1);
    assert LowerRunEnd(s, 2) == 6;
  }
}
