/**
 * Role suggestion: `suggest_job_role` lower-cases the resume text, splits it
 * on runs of whitespace, counts for each of four roles how many tokens are
 * one of that role's keywords, and returns the role with the highest count,
 * the first one in the fixed order on a tie (`max` over the score dict).
 */
module Roles {
  import opened Chars

  /** The roles, in the order of the keyword table. */
  const ROLES: seq<string> := ["Software Engineer", "Data Scientist", "Project Manager", "UX/UI Designer"]

  /** Keyword lists, index by index with ROLES. */
  const KEYWORDS: seq<seq<string>> := [
    ["programming", "development", "software", "coding", "engineering"],
    ["data", "machine learning", "statistics", "analysis", "modeling"],
    ["management", "leadership", "project", "planning", "coordination"],
    ["design", "user experience", "interface", "prototyping", "creativity"]
  ]

  predicate NoSpace(t: string)
  {
    forall k :: 0 <= k < |t| ==> !IsSpace(t[k])
  }

  /** Length of the leading run of non-whitespace characters. */
  function TokenLength(s: string): (n: nat)
    ensures n <= |s|
    ensures NoSpace(s[..n])
    ensures n == |s| || IsSpace(s[n])
  {
    if s == [] || IsSpace(s[0]) then 0
    else
      var n := 1 + TokenLength(s[1..]);
      assert s[..n] == [s[0]] + s[1..][..n - 1];
      n
  }

  /** `str.split()` without arguments: the maximal runs of non-whitespace
      characters, in order; leading, trailing and repeated whitespace yield
      no empty tokens. */
  function Split(s: string): (tokens: seq<string>)
    ensures forall t :: t in tokens ==> t != [] && NoSpace(t)
    decreases |s|
  {
    if s == [] then []
    else if IsSpace(s[0]) then Split(s[1..])
    else
      var n := TokenLength(s);
      [s[..n]] + Split(s[n..])
  }

  /** A text without whitespace stays one token... */
  lemma SplitWord(w: string)
    requires w != [] && NoSpace(w)
    ensures Split(w) == [w]
  {
    TokenLengthOfWord(w);
    assert w[..|w|] == w && w[|w|..] == [];
  }

  lemma {:induction false} TokenLengthOfWord(w: string)
    requires NoSpace(w)
    ensures TokenLength(w) == |w|
  {
    if w != [] {
      TokenLengthOfWord(w[1..]);
    }
  }

  /** ...whitespace alone yields none... */
  lemma {:induction false} SplitBlank(s: string)
    requires forall k :: 0 <= k < |s| ==> IsSpace(s[k])
    ensures Split(s) == []
  {
    if s != [] {
      SplitBlank(s[1..]);
    }
  }

  /** ...and one whitespace character always separates. With the two lemmas
      above this determines Split on every text. */
  lemma {:induction false} SplitAtSpace(a: string, c: char, b: string)
    requires IsSpace(c)
    ensures Split(a + [c] + b) == Split(a) + Split(b)
    decreases |a|
  {
    var s := a + [c] + b;
    if a == [] {
      assert s[1..] == b;
    } else if IsSpace(a[0]) {
      assert s[1..] == a[1..] + [c] + b;
      SplitAtSpace(a[1..], c, b);
    } else {
      var n := TokenLength(a);
      TokenLengthAtSpace(a, c, b);
      assert s[..n] == a[..n];
      assert s[n..] == a[n..] + [c] + b;
      SplitAtSpace(a[n..], c, b);
    }
  }

  lemma {:induction false} TokenLengthAtSpace(a: string, c: char, b: string)
    requires IsSpace(c)
    ensures TokenLength(a + [c] + b) == TokenLength(a)
  {
    var s := a + [c] + b;
    if a != [] && !IsSpace(a[0]) {
      assert s[1..] == a[1..] + [c] + b;
      TokenLengthAtSpace(a[1..], c, b);
    }
  }

  /** Number of tokens that equal one of the keywords; a repeated token
      counts each time (`sum(1 for word in tokens if word in kw_list)`). */
  function Score(tokens: seq<string>, keywords: seq<string>): (n: nat)
    ensures n <= |tokens|
  {
    if tokens == [] then 0
    else (if tokens[0] in keywords then 1 else 0) + Score(tokens[1..], keywords)
  }

  lemma {:induction false} ScoreAppend(a: seq<string>, b: seq<string>, keywords: seq<string>)
    ensures Score(a + b, keywords) == Score(a, keywords) + Score(b, keywords)
  {
    if a == [] {
      assert a + b == b;
    } else {
      assert (a + b)[1..] == a[1..] + b;
      ScoreAppend(a[1..], b, keywords);
    }
  }

  /** A score is zero exactly when no token is a keyword. */
  lemma {:induction false} ScoreZero(tokens: seq<string>, keywords: seq<string>)
    ensures Score(tokens, keywords) == 0 <==> forall t :: t in tokens ==> t !in keywords
  {
    if tokens != [] {
      ScoreZero(tokens[1..], keywords);
      assert forall t :: t in tokens <==> t == tokens[0] || t in tokens[1..];
    }
  }

  /** The keywords that could ever equal a token: those without whitespace. */
  function SingleWords(keywords: seq<string>): (r: seq<string>)
    ensures forall k :: k in r <==> k in keywords && NoSpace(k)
  {
    if keywords == [] then []
    else (if NoSpace(keywords[0]) then [keywords[0]] else []) + SingleWords(keywords[1..])
  }

  /** Against whitespace-free tokens, a keyword containing whitespace (such
      as "machine learning") contributes nothing. */
  lemma {:induction false} SpacedKeywordsNeverMatch(tokens: seq<string>, keywords: seq<string>)
    requires forall t :: t in tokens ==> NoSpace(t)
    ensures Score(tokens, keywords) == Score(tokens, SingleWords(keywords))
  {
    if tokens != [] {
      assert tokens[0] in tokens;
      SpacedKeywordsNeverMatch(tokens[1..], keywords);
    }
  }

  predicate NoUpper(t: string)
  {
    forall k :: 0 <= k < |t| ==> !IsUpper(t[k])
  }

  /** Splitting introduces no character, so no token of a text without
      upper-case letters has one. */
  lemma {:induction false} SplitNoUpper(s: string)
    requires NoUpper(s)
    ensures forall t :: t in Split(s) ==> NoUpper(t)
    decreases |s|
  {
    if s != [] {
      if IsSpace(s[0]) {
        SplitNoUpper(s[1..]);
      } else {
        var n := TokenLength(s);
        SplitNoUpper(s[n..]);
        assert NoUpper(s[..n]);
      }
    }
  }

  /** The tokens `suggest_job_role` scores: `resume_text.lower().split()`,
      non-empty words without whitespace or upper-case letters. */
  function Tokens(text: string): (tokens: seq<string>)
    ensures forall t :: t in tokens ==> t != [] && NoSpace(t) && NoUpper(t)
  {
    SplitNoUpper(Lower(text));
    Split(Lower(text))
  }

  /** Score of each role, in the order of ROLES. */
  function RoleScores(text: string): (scores: seq<nat>)
    ensures |scores| == |ROLES|
    ensures forall r :: 0 <= r < |ROLES| ==> scores[r] == Score(Tokens(text), KEYWORDS[r])
  {
    var tokens := Tokens(text);
    seq(|ROLES|, r requires 0 <= r < |ROLES| => Score(tokens, KEYWORDS[r]))
  }

  /** Index that Python's `max` picks: it scans left to right and replaces
      its candidate only by a strictly greater value, so the result is a
      maximum and every earlier entry is strictly smaller. */
  function FirstMax(xs: seq<int>): (k: nat)
    requires xs != []
    ensures k < |xs|
    ensures forall j :: 0 <= j < |xs| ==> xs[j] <= xs[k]
    ensures forall j :: 0 <= j < k ==> xs[j] < xs[k]
  {
    if |xs| == 1 then 0
    else
      var k := FirstMax(xs[..|xs| - 1]);
      if xs[|xs| - 1] > xs[k] then |xs| - 1 else k
  }

  /** `suggest_job_role`. */
  function SuggestJobRole(text: string): (role: string)
    ensures role in ROLES
  {
    ROLES[FirstMax(RoleScores(text))]
  }

  /** The suggested role has the highest score, and every role before it in
      the fixed order scores strictly less. */
  lemma SuggestedRoleIsFirstBest(text: string)
    ensures exists r :: (0 <= r < |ROLES| && SuggestJobRole(text) == ROLES[r]
      && (forall j :: 0 <= j < |ROLES| ==> RoleScores(text)[j] <= RoleScores(text)[r])
      && (forall j :: 0 <= j < r ==> RoleScores(text)[j] < RoleScores(text)[r]))
  {
    var r := FirstMax(RoleScores(text));
    assert SuggestJobRole(text) == ROLES[r];
  }

  /** A text without any keyword token gets the first role. */
  lemma NoKeywordGivesFirstRole(text: string)
    requires forall t, r :: t in Tokens(text) && 0 <= r < |KEYWORDS| ==> t !in KEYWORDS[r]
    ensures SuggestJobRole(text) == "Software Engineer"
  {
    var scores := RoleScores(text);
    forall r | 0 <= r < |ROLES| ensures scores[r] == 0 {
      ScoreZero(Tokens(text), KEYWORDS[r]);
    }
    var k := FirstMax(scores);
    assert scores[0] == 0 && scores[k] == 0;
    assert k == 0;
  }

  /** Only single-word keywords count: the two-word ones of the Data
      Scientist and UX/UI Designer lists never contribute. */
  lemma RoleScoresUseSingleWords(text: string)
    ensures forall r :: 0 <= r < |ROLES| ==>
      RoleScores(text)[r] == Score(Tokens(text), SingleWords(KEYWORDS[r]))
  {
    forall r | 0 <= r < |ROLES|
      ensures RoleScores(text)[r] == Score(Tokens(text), SingleWords(KEYWORDS[r]))
    {
      SpacedKeywordsNeverMatch(Tokens(text), KEYWORDS[r]);
    }
  }
}
