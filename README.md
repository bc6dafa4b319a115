# Resume screening core, modelled in Dafny

The application is a small web app. It ranks uploaded PDF resumes against a
job description and annotates each resume with a sentiment label and a
suggested job role. Underneath the PDF reader, the scikit-learn similarity
scores, TextBlob and the UI, it has a deterministic core. This project
models that core and proves what it does:

- **Name extraction** (`extract_name`). A `re.search` for
  `[A-Z][a-z]+(?:\s[A-Z][a-z]+)*`, or "Unknown" when nothing matches. The
  search is modelled as "leftmost word start, then greedy extension"
  (module `Names`). It is proved equal to the search semantics: the match at
  the leftmost position where the pattern matches at all, and there the
  longest match. The pattern's language is given independently by
  `IsNameRun`.
- **Role suggestion** (`suggest_job_role`). The text is lower-cased and
  split on whitespace runs. Tokens are counted against four fixed keyword
  lists, and `max` keeps the first role with the highest count (module
  `Roles`).
- **Sentiment label** (`analyze_sentiment`). The sign of the polarity score
  decides the label (module `Sentiment`).
- **Ranking** (`rank_resumes` after scoring). The table is empty when
  there are no resumes. Otherwise it has one row per resume, sorted by score
  with the highest first. This is an in-place sort on an array (module
  `Ranking`).
- **Per-file analysis and report** (`process_resumes`, `download_results`).
  A loop builds one sentiment row and one role row per upload. The report is
  two left joins on (Name, Resume) (modules `Tables` and `Pipeline`). With
  no uploads, `download_results` fails. The sentiment table is then built
  from an empty list, so it has no Name or Resume column to join on. The
  model returns None there.

Text is `seq<char>`. Letters are ASCII `A`-`Z` and `a`-`z`. Whitespace is
the fixed set of ASCII characters for which Python's `str.isspace` holds:
codes 9-13, 28-31 and 32. The regex `\s` and `str.split()` both use this
set. The match scores and the polarity function are inputs.

Some consequences proved about the model:

- A text whose first capitalised run is literally "Unknown" also yields
  "Unknown". The placeholder alone therefore does not mean that nothing
  matched (`Names.UnknownIsAlsoAName`).
- The two-word keywords "machine learning" and "user experience" can never
  equal a whitespace-free token, so they never score
  (`Roles.RoleScoresUseSingleWords`).
- The report never actually contains a null. The sentiment and role tables
  come from the same uploads as the ranking, so every ranked row finds a
  match (`Pipeline.ReportHasNoNulls`).
- With distinct (Name, Resume) keys, the report is the ranking row for row
  (`Pipeline.ReportOfDistinctUploads`). A file uploaded twice has a key
  with two rows in every table, and each join multiplies the rows: two
  ranked rows become eight report rows
  (`Pipeline.DuplicateUploadMultipliesRows`).

Three details of the code that the model keeps:

- The ranking uses pandas' default sort, which is not stable. The model
  therefore promises only "sorted and a permutation", not that ties keep
  upload order.
- In a name, `\s` joins words by any single whitespace character, not only
  a space.
- A repeated keyword token counts each time it occurs.

## Model

| member | source | states |
|---|---|---|
| `Chars.Lower` | app.py:67 | `lower()` on ASCII: same length, each upper-case letter folded, every other character kept |
| `Names.LeftmostWordStart` | app.py:20-21 | the search starts at the leftmost upper-case letter followed by a lower-case one; none exists exactly when it returns None |
| `Names.RunEnd` | app.py:20 | the greedy match from a word start is a run of the pattern and cannot be extended: the next character is not lower-case, and no whitespace plus word follows |
| `Names.FindName` | app.py:20-21 | the search finds nothing exactly when no upper-case letter is followed by a lower-case one |
| `Names.ExtractName` | app.py:18-22 | the result is "Unknown" or a string of the pattern's language |
| `Names.MatchStartsAtWordStart` | app.py:20 | every match of the pattern begins with an upper-case then a lower-case letter |
| `Names.GreedyIsLongest` | app.py:20 | no match from the same start is longer than the greedy one |
| `Names.FindNameIsSearch` | app.py:20-21 | the span found is exactly the re.search result (leftmost start, then longest match), and None exactly when the pattern matches nowhere |
| `Names.ExtractNameMeaning` | app.py:20-22 | "Unknown" when no word starts anywhere; otherwise the text of the leftmost-longest match |
| `Names.UnknownIsAlsoAName` | app.py:22 | the text "Unknown" contains a match and also yields "Unknown" |
| `Names.PlaceholderName` | app.py:15-22 | the unreadable-PDF placeholder "No readable text found." yields the name "No" |
| `Names.MatchInsideWord` | app.py:20 | no word boundary is required: "iPhone" yields "Phone" |
| `Roles.Split` | app.py:67 | `split()` gives non-empty tokens without whitespace |
| `Roles.SplitWord` | app.py:67 | a non-empty text without whitespace is a single token |
| `Roles.SplitBlank` | app.py:67 | a text of whitespace only gives no tokens |
| `Roles.SplitAtSpace` | app.py:67 | one whitespace character separates: the split of a + c + b is the split of a followed by the split of b |
| `Roles.SplitNoUpper` | app.py:67 | splitting a text without upper-case letters gives tokens without them |
| `Roles.Tokens` | app.py:67 | `resume_text.lower().split()` gives non-empty tokens without whitespace or upper-case letters |
| `Roles.Score` | app.py:68 | a role's score is at most the number of tokens |
| `Roles.ScoreAppend` | app.py:68 | scores add over concatenated token lists, so repeated tokens count again |
| `Roles.ScoreZero` | app.py:68 | a score is zero exactly when no token is one of the role's keywords |
| `Roles.SpacedKeywordsNeverMatch` | app.py:62-68 | against whitespace-free tokens a keyword containing whitespace contributes nothing |
| `Roles.RoleScoresUseSingleWords` | app.py:60-68 | each role's score equals its score over its single-word keywords only |
| `Roles.RoleScores` | app.py:60-68 | one score per role, in table order, counting the lower-cased split tokens against that role's keywords |
| `Roles.FirstMax` | app.py:69 | the index `max` picks holds a maximum, and every earlier entry is strictly smaller |
| `Roles.SuggestJobRole` | app.py:58-70 | the result is always one of the four roles |
| `Roles.SuggestedRoleIsFirstBest` | app.py:68-69 | the suggested role has the highest score, and every role before it in the fixed order scores strictly less |
| `Roles.NoKeywordGivesFirstRole` | app.py:60-69 | a text without any keyword token gets "Software Engineer" |
| `Sentiment.LabelOf` | app.py:54 | Positive exactly when the score is > 0, Negative exactly when < 0, Neutral exactly when = 0 |
| `Sentiment.AnalyzeSentiment` | app.py:50-55 | returns the polarity of the text and the label of its sign |
| `Tables.Matching` | app.py:101-102 | the matches of a key are data of right rows carrying that key, at most one per right row |
| `Tables.JoinRow` | app.py:101-102 | a left row gives at least one output row, each with its key and left columns; the right part is null exactly when nothing matches; otherwise one row per match, each carrying that match, in right-table order |
| `Tables.LeftJoin` | app.py:101-102 | `merge(how="left")`: at least one output row per left row, and empty exactly when the left table is |
| `Tables.CollectMatches` | app.py:101-102 | the scan of the right table collects exactly the rows with the key, in table order |
| `Tables.JoinOne` | app.py:101-102 | a left row gives one output row per matching right row, or one null-filled row |
| `Tables.Merge` | app.py:101-102 | the merge loop computes the left join |
| `Tables.LeftJoinKeepsLeftRows` | app.py:101-102 | dropping the added columns gives back the left table in order, each row repeated once per match and at least once |
| `Tables.StretchLength` | app.py:101-102 | the join has at least as many rows as the left table |
| `Tables.StretchMembers` | app.py:101-102 | every row of the join's left part is a row of the left table |
| `Tables.LeftJoinNullFill` | app.py:101-102 | a row's right part is null exactly when no right row has its key; otherwise it is the data of a right row with that key |
| `Tables.MatchingUnique` | app.py:101-102 | with unique right keys a key matches at most one row, namely the row carrying it |
| `Tables.LeftJoinUniqueKeys` | app.py:101-102 | with unique right keys the join keeps the row count and order, each row extended by its match or by null |
| `Tables.LeftJoinOneKey` | app.py:101-102 | left rows sharing a key that m right rows carry give m output rows each |
| `Tables.MatchingContains` | app.py:101-102 | a right row is among the matches of its own key |
| `Tables.LeftJoinKeys` | app.py:101-102 | the join carries exactly the keys of the left table |
| `Tables.LookupOwnKey` | app.py:101-102 | with unique keys, looking up a row's key finds that row |
| `Tables.MatchingAllSameKey` | app.py:101-102 | when every right row has the key, all of them match |
| `Ranking.ScoredRow` | app.py:41-44 | a resume's row has the extracted name, the file name and the resume's score |
| `Ranking.ScoredRows` | app.py:41-44 | one row per resume, in upload order |
| `Ranking.SortByScoreDescending` | app.py:45 | afterwards the scores do not increase down the array, and it holds the same rows |
| `Ranking.RankResumes` | app.py:25-47 | empty without resumes; otherwise a permutation of the per-resume rows with non-increasing scores |
| `Ranking.RankingLength` | app.py:41-45 | the ranking has one row per resume |
| `Ranking.RankingRowsComeFromResumes` | app.py:41-45 | every ranked row is the row of some resume with that resume's score |
| `Pipeline.SentimentRow` | app.py:138-146 | the sentiment row has the upload's key, its polarity and the label of that polarity |
| `Pipeline.RoleRow` | app.py:138-151 | the role row has the upload's key and the role `suggest_job_role` picks for its text |
| `Pipeline.SentimentRows` | app.py:136-146 | one sentiment row per upload, in upload order |
| `Pipeline.RoleRows` | app.py:136-151 | one role row per upload, in upload order |
| `Pipeline.AnalyzeResumes` | app.py:136-151 | the loop appends exactly the sentiment rows and role rows of the uploads, in upload order |
| `Pipeline.AnalysisOfPrefix` | app.py:136-151 | one more upload adds exactly its own row to each table |
| `Pipeline.ProcessResumes` | app.py:132-152 | returns a valid ranking and the two analysis tables |
| `Pipeline.Report` | app.py:101-102 | the two merges keep at least one report row per ranked row, and the report is empty exactly when the ranking is |
| `Pipeline.DownloadResults` | app.py:73-102 | fails (None) exactly when there are no uploads, since the column-less sentiment table cannot be merged; otherwise the report is the two left joins of some valid ranking with the analysis tables |
| `Pipeline.RankingKeys` | app.py:41-45 | a ranking carries exactly the keys of the uploads |
| `Pipeline.EveryKeyMatches` | app.py:79-102 | every ranked key has a row in each analysis table |
| `Pipeline.ReportHasNoNulls` | app.py:79-102 | no report row has a null sentiment or a null role |
| `Pipeline.ReportOfDistinctUploads` | app.py:73-102 | with distinct keys, the report row i is ranked row i, completed by that upload's sentiment and role |
| `Pipeline.ReportLength` | app.py:101-102 | with distinct keys the report has as many rows as the ranking |
| `Pipeline.ReportRowOfUpload` | app.py:79-102 | with distinct keys, the report row at ranked row i of upload k is that row completed by upload k's sentiment and role |
| `Pipeline.TwinRanking` | app.py:41-45 | a file uploaded twice gives two ranked rows with the same key |
| `Pipeline.TwinAnalysis` | app.py:79-96 | a file uploaded twice has two rows under its key in each analysis table |
| `Pipeline.DuplicateUploadMultipliesRows` | app.py:73-102 | a file uploaded twice gives two ranked rows and eight report rows |

## Left out

- PDF text extraction (app.py:11-15) is I/O through PyPDF2. Each upload's
  extracted text is an input (`Document.text`). The placeholder string
  appears only as a constant.
- Both handlers extract each PDF twice. The model assumes extraction is
  deterministic and uses one text per upload.
- TF-IDF vectors, cosine similarity and `(scores * 100).round(2)`
  (app.py:31-39, 44) are scikit-learn and floating-point work. The scores
  are inputs, one real number per resume in upload order.
  `RankResumes` requires one score per resume, which is what the library
  returns.
- TextBlob's polarity (app.py:52-53) is a foreign NLP model. It is an
  input function from text to a real number.
- Floating-point numbers are modelled as reals. The model has no NaN and no
  rounding.
- The temporary file and CSV writing (app.py:104-106) are I/O.
  `DownloadResults` returns the table that would be written.
- The Gradio UI, button wiring and `app.launch` (app.py:109-130, 154-167)
  are UI and server plumbing.
- DownloadResults: the KeyError pandas raises for an empty upload list is
  modelled as None. The exception's type and message are not modelled.
- The upload widget passing `None` instead of a list is not modelled. The
  handlers take a list of uploads.
- Non-ASCII text is not modelled. The model folds case only for ASCII
  letters and knows only the ASCII whitespace characters. Python's `lower()`
  and `\s` also handle non-ASCII letters and whitespace.
- Column names and column order of the DataFrames are not modelled. A row
  is its (Name, Resume) key plus a tuple of the other columns.
- `SortByScoreDescending`: the order of rows with equal scores is not
  stated. The library's default sort does not fix it; the insertion sort
  used here picks one such order.
- `max` on an empty dict raises an error. That case cannot occur, since
  there are always four roles, so `FirstMax` requires a non-empty sequence.
