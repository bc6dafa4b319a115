/**
 * The two request handlers. `process_resumes` ranks the resumes and, in a
 * loop over the uploads, builds one sentiment row and one role row per
 * file. `download_results` does the same and then left-joins the ranking
 * with the sentiment table and the result with the role table on
 * (Name, Resume) before writing the report out as CSV.
 *
 * Inputs standing for what is out of this model: each upload's extracted
 * text (inside Document), the match scores (one per upload, in upload
 * order) and the polarity score of a text.
 */
module Pipeline {
  import opened Wrappers
  import opened Names
  import opened Roles
  import opened Sentiment
  import opened Tables
  import opened Ranking

  /** Columns of the report after Name and Resume: the match score, the
      sentiment and its score, and the suggested role. */
  type ReportData = ((real, Option<(Label, real)>), Option<string>)

  function SentimentRow(doc: Document, polarity: string -> real): (row: Row<(Label, real)>)
    ensures KeyOf(row) == (ExtractName(doc.text), doc.fileName)
    ensures row.data.1 == polarity(doc.text) && row.data.0 == LabelOf(row.data.1)
  {
    Row(ExtractName(doc.text), doc.fileName, AnalyzeSentiment(doc.text, polarity))
  }

  function RoleRow(doc: Document): (row: Row<string>)
    ensures KeyOf(row) == (ExtractName(doc.text), doc.fileName)
    ensures row.data == SuggestJobRole(doc.text) && row.data in ROLES
  {
    Row(ExtractName(doc.text), doc.fileName, SuggestJobRole(doc.text))
  }

  /** The sentiment table: one row per upload, in upload order. */
  function SentimentRows(docs: seq<Document>, polarity: string -> real): (rows: seq<Row<(Label, real)>>)
    ensures |rows| == |docs|
    ensures forall i :: 0 <= i < |docs| ==> rows[i] == SentimentRow(docs[i], polarity)
  {
    seq(|docs|, i requires 0 <= i < |docs| => SentimentRow(docs[i], polarity))
  }

  /** The role table: one row per upload, in upload order. */
  function RoleRows(docs: seq<Document>): (rows: seq<Row<string>>)
    ensures |rows| == |docs|
    ensures forall i :: 0 <= i < |docs| ==> rows[i] == RoleRow(docs[i])
  {
    seq(|docs|, i requires 0 <= i < |docs| => RoleRow(docs[i]))
  }

  /** The loop shared by both handlers: for each upload, in order, append
      its sentiment row and its role row. */
  method AnalyzeResumes(docs: seq<Document>, polarity: string -> real)
    returns (sentiments: seq<Row<(Label, real)>>, roles: seq<Row<string>>)
    ensures sentiments == SentimentRows(docs, polarity)
    ensures roles == RoleRows(docs)
  {
    sentiments, roles := [], [];
    for i := 0 to |docs|
      invariant sentiments == SentimentRows(docs[..i], polarity)
      invariant roles == RoleRows(docs[..i])
    {
      var text := docs[i].text;
      var name := ExtractName(text);
      var (sentiment, score) := AnalyzeSentiment(text, polarity);
      var role := SuggestJobRole(text);
      sentiments := sentiments + [Row(name, docs[i].fileName, (sentiment, score))];
      roles := roles + [Row(name, docs[i].fileName, role)];
      AnalysisOfPrefix(docs, i, polarity);
    }
    assert docs[..|docs|] == docs;
  }

  /** Extending the uploads by one extends each table by that upload's row. */
  lemma AnalysisOfPrefix(docs: seq<Document>, i: nat, polarity: string -> real)
    requires i < |docs|
    ensures SentimentRows(docs[..i + 1], polarity) == SentimentRows(docs[..i], polarity) + [SentimentRow(docs[i], polarity)]
    ensures RoleRows(docs[..i + 1]) == RoleRows(docs[..i]) + [RoleRow(docs[i])]
  {
    assert docs[..i + 1] == docs[..i] + [docs[i]];
  }

  /** `process_resumes`: the ranking and the two analysis tables. */
  method ProcessResumes(docs: seq<Document>, scores: seq<real>, polarity: string -> real)
    returns (ranking: seq<Row<real>>, sentiments: seq<Row<(Label, real)>>, roles: seq<Row<string>>)
    requires |scores| == |docs|
    ensures docs == [] ==> ranking == []
    ensures NonIncreasing(ranking)
    ensures multiset(ranking) == multiset(ScoredRows(docs, scores))
    ensures sentiments == SentimentRows(docs, polarity)
    ensures roles == RoleRows(docs)
  {
    ranking := RankResumes(docs, scores);
    sentiments, roles := AnalyzeResumes(docs, polarity);
  }

  /** The two left joins of `download_results`. */
  function Report(ranking: seq<Row<real>>, docs: seq<Document>, polarity: string -> real): (report: seq<Row<ReportData>>)
    ensures |ranking| <= |report|
    ensures report == [] <==> ranking == []
  {
    LeftJoin(LeftJoin(ranking, SentimentRows(docs, polarity)), RoleRows(docs))
  }

  /** A ranking `rank_resumes` may return for these uploads and scores. */
  ghost predicate IsRanking(ranking: seq<Row<real>>, docs: seq<Document>, scores: seq<real>)
    requires |scores| == |docs|
  {
    NonIncreasing(ranking) && multiset(ranking) == multiset(ScoredRows(docs, scores))
  }

  /**
   * `download_results` up to writing the CSV file: the joined report. With
   * no uploads the sentiment table is built from an empty list and has no
   * Name and Resume columns, so the first merge fails: None.
   */
  method DownloadResults(docs: seq<Document>, scores: seq<real>, polarity: string -> real)
    returns (report: Option<seq<Row<ReportData>>>)
    requires |scores| == |docs|
    ensures report.None? <==> docs == []
    ensures report.Some? ==>
      exists ranking :: IsRanking(ranking, docs, scores) && report.value == Report(ranking, docs, polarity)
  {
    var ranking := RankResumes(docs, scores);
    var sentiments, roles := AnalyzeResumes(docs, polarity);
    if sentiments == [] {
      return None;
    }
    var combined := Merge(ranking, sentiments);
    var joined := Merge(combined, roles);
    assert IsRanking(ranking, docs, scores);
    report := Some(joined);
  }

  /** Uploads whose (name, file name) keys are pairwise distinct. */
  ghost predicate DistinctKeys(docs: seq<Document>)
  {
    forall i, j :: 0 <= i < |docs| && 0 <= j < |docs|
      && (ExtractName(docs[i].text), docs[i].fileName) == (ExtractName(docs[j].text), docs[j].fileName)
      ==> i == j
  }

  /** The keys of every ranking are the keys of the uploads. */
  lemma RankingKeys(ranking: seq<Row<real>>, docs: seq<Document>, scores: seq<real>)
    requires |scores| == |docs|
    requires IsRanking(ranking, docs, scores)
    ensures KeysOf(ranking) == KeysOf(ScoredRows(docs, scores))
  {
    var rows := ScoredRows(docs, scores);
    forall k | k in KeysOf(ranking) ensures k in KeysOf(rows) {
      var i :| 0 <= i < |ranking| && KeyOf(ranking[i]) == k;
      assert ranking[i] in multiset(rows);
      var j :| 0 <= j < |rows| && rows[j] == ranking[i];
    }
    forall k | k in KeysOf(rows) ensures k in KeysOf(ranking) {
      var j :| 0 <= j < |rows| && KeyOf(rows[j]) == k;
      assert rows[j] in multiset(ranking);
      var i :| 0 <= i < |ranking| && ranking[i] == rows[j];
    }
  }

  /** Every key present in the ranking has a matching row in a table built
      from the same uploads. */
  lemma {:induction false} EveryKeyMatches<T>(keys: set<Key>, docs: seq<Document>, scores: seq<real>, right: seq<Row<T>>)
    requires |scores| == |docs| && |right| == |docs|
    requires keys == KeysOf(ScoredRows(docs, scores))
    requires forall i :: 0 <= i < |docs| ==> KeyOf(right[i]) == (ExtractName(docs[i].text), docs[i].fileName)
    ensures forall k :: k in keys ==> |Matching(right, k)| > 0
  {
    forall k | k in keys ensures |Matching(right, k)| > 0 {
      var i :| 0 <= i < |docs| && KeyOf(ScoredRows(docs, scores)[i]) == k;
      MatchingContains(right, i);
    }
  }

  /** The report never holds a null: both tables it joins come from the
      same uploads as the ranking, so every ranked row finds its sentiment
      and its role. */
  lemma ReportHasNoNulls(ranking: seq<Row<real>>, docs: seq<Document>, scores: seq<real>, polarity: string -> real)
    requires |scores| == |docs|
    requires IsRanking(ranking, docs, scores)
    ensures forall j :: 0 <= j < |Report(ranking, docs, polarity)| ==>
      Report(ranking, docs, polarity)[j].data.0.1.Some? && Report(ranking, docs, polarity)[j].data.1.Some?
  {
    var sentiments, roles := SentimentRows(docs, polarity), RoleRows(docs);
    var combined := LeftJoin(ranking, sentiments);
    var report := LeftJoin(combined, roles);
    RankingKeys(ranking, docs, scores);
    LeftJoinKeys(ranking, sentiments);
    LeftJoinKeys(combined, roles);
    EveryKeyMatches(KeysOf(ranking), docs, scores, sentiments);
    EveryKeyMatches(KeysOf(ranking), docs, scores, roles);
    LeftJoinNullFill(ranking, sentiments);
    LeftJoinNullFill(combined, roles);
    LeftJoinKeepsLeftRows(combined, roles);
    forall j | 0 <= j < |report| ensures report[j].data.0.1.Some? && report[j].data.1.Some? {
      assert KeyOf(report[j]) in KeysOf(report);
      var c := LeftParts(report)[j];
      assert c in Stretch(combined, roles);
      StretchMembers(combined, roles, c);
      var i :| 0 <= i < |combined| && combined[i] == c;
      assert KeyOf(combined[i]) in KeysOf(combined);
    }
  }

  /** Distinct upload keys make both analysis tables' keys unique. */
  lemma AnalysisKeysUnique(docs: seq<Document>, polarity: string -> real)
    requires DistinctKeys(docs)
    ensures UniqueKeys(SentimentRows(docs, polarity))
    ensures UniqueKeys(RoleRows(docs))
  {
  }

  /** The report row that completes the ranked row of upload `k`. */
  function CompletedRow(doc: Document, score: real, polarity: string -> real): Row<ReportData>
  {
    Row(ExtractName(doc.text), doc.fileName,
        ((score, Some(AnalyzeSentiment(doc.text, polarity))), Some(SuggestJobRole(doc.text))))
  }

  /** With distinct keys, the report is the ranking row for row, each row
      completed by the sentiment and the role of the upload it ranks. */
  lemma ReportOfDistinctUploads(ranking: seq<Row<real>>, docs: seq<Document>, scores: seq<real>, polarity: string -> real)
    requires |scores| == |docs|
    requires IsRanking(ranking, docs, scores)
    requires DistinctKeys(docs)
    ensures |Report(ranking, docs, polarity)| == |ranking| == |docs|
    ensures forall i :: 0 <= i < |ranking| ==> exists k :: (0 <= k < |docs|
      && ranking[i] == ScoredRow(docs[k], scores[k])
      && Report(ranking, docs, polarity)[i] == CompletedRow(docs[k], scores[k], polarity))
  {
    RankingLength(docs, scores, ranking);
    RankingRowsComeFromResumes(docs, scores, ranking);
    ReportLength(ranking, docs, polarity);
    forall i | 0 <= i < |ranking|
      ensures exists k :: (0 <= k < |docs|
        && ranking[i] == ScoredRow(docs[k], scores[k])
        && Report(ranking, docs, polarity)[i] == CompletedRow(docs[k], scores[k], polarity))
    {
      var k :| 0 <= k < |docs| && ranking[i] == ScoredRow(docs[k], scores[k]);
      ReportRowOfUpload(ranking, docs, scores, polarity, i, k);
    }
  }

  /** With distinct keys both joins keep the ranking's row count. */
  lemma ReportLength(ranking: seq<Row<real>>, docs: seq<Document>, polarity: string -> real)
    requires DistinctKeys(docs)
    ensures |Report(ranking, docs, polarity)| == |ranking|
  {
    AnalysisKeysUnique(docs, polarity);
    LeftJoinUniqueKeys(ranking, SentimentRows(docs, polarity));
    LeftJoinUniqueKeys(LeftJoin(ranking, SentimentRows(docs, polarity)), RoleRows(docs));
  }

  /** One row of ReportOfDistinctUploads: ranked row i, which is upload k's. */
  lemma ReportRowOfUpload(ranking: seq<Row<real>>, docs: seq<Document>, scores: seq<real>,
                          polarity: string -> real, i: nat, k: nat)
    requires |scores| == |docs| == |ranking|
    requires DistinctKeys(docs)
    requires i < |ranking| && k < |docs| && ranking[i] == ScoredRow(docs[k], scores[k])
    ensures i < |Report(ranking, docs, polarity)|
    ensures Report(ranking, docs, polarity)[i] == CompletedRow(docs[k], scores[k], polarity)
  {
    var sentiments, roles := SentimentRows(docs, polarity), RoleRows(docs);
    var combined := LeftJoin(ranking, sentiments);
    AnalysisKeysUnique(docs, polarity);
    LeftJoinUniqueKeys(ranking, sentiments);
    LeftJoinUniqueKeys(combined, roles);
    LookupOwnKey(sentiments, k);
    LookupOwnKey(roles, k);
    assert combined[i] == Row(ranking[i].name, ranking[i].resume, (scores[k], Some(sentiments[k].data)));
  }

  /** The ranking of a file uploaded twice: two rows with the same key. */
  lemma TwinRanking(d: Document, scores: seq<real>, ranking: seq<Row<real>>)
    requires |scores| == 2
    requires IsRanking(ranking, [d, d], scores)
    ensures |ranking| == 2
    ensures forall i :: 0 <= i < |ranking| ==> KeyOf(ranking[i]) == (ExtractName(d.text), d.fileName)
  {
    RankingLength([d, d], scores, ranking);
    RankingKeys(ranking, [d, d], scores);
    assert KeysOf(ScoredRows([d, d], scores)) <= {(ExtractName(d.text), d.fileName)};
    SingleKey(ranking, (ExtractName(d.text), d.fileName));
  }

  /** The analysis tables of a file uploaded twice: two rows with its key. */
  lemma TwinAnalysis(d: Document, polarity: string -> real)
    ensures |Matching(SentimentRows([d, d], polarity), (ExtractName(d.text), d.fileName))| == 2
    ensures |Matching(RoleRows([d, d]), (ExtractName(d.text), d.fileName))| == 2
  {
    MatchingAllSameKey(SentimentRows([d, d], polarity), (ExtractName(d.text), d.fileName));
    MatchingAllSameKey(RoleRows([d, d]), (ExtractName(d.text), d.fileName));
  }

  /** Uploading the same file twice gives a key with two rows in every
      table, and each join multiplies: two ranked rows become eight report
      rows. */
  lemma DuplicateUploadMultipliesRows(d: Document, scores: seq<real>, ranking: seq<Row<real>>, polarity: string -> real)
    requires |scores| == 2
    requires IsRanking(ranking, [d, d], scores)
    ensures |ranking| == 2
    ensures |Report(ranking, [d, d], polarity)| == 8
  {
    var k := (ExtractName(d.text), d.fileName);
    var sentiments, roles := SentimentRows([d, d], polarity), RoleRows([d, d]);
    TwinRanking(d, scores, ranking);
    TwinAnalysis(d, polarity);
    LeftJoinOneKey(ranking, sentiments, k);
    var combined := LeftJoin(ranking, sentiments);
    LeftJoinKeys(ranking, sentiments);
    SingleKey(combined, k);
    LeftJoinOneKey(combined, roles, k);
  }
}
