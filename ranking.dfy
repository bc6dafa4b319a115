/**
 * Ranking post-processing: `rank_resumes` returns an empty table when no
 * resume was uploaded; otherwise it builds one row per resume (extracted
 * name, file name, match score) and sorts the rows by score, highest first.
 * The scores come from TF-IDF vectors and cosine similarity and are inputs
 * here, one per resume in upload order.
 */
module Ranking {
  import opened Names
  import opened Tables

  /** An uploaded resume: its file name and the text extracted from it. */
  datatype Document = Document(fileName: string, text: string)

  /** The ranking table's row for one resume. */
  function ScoredRow(doc: Document, score: real): (row: Row<real>)
    ensures KeyOf(row) == (ExtractName(doc.text), doc.fileName)
    ensures row.data == score
  {
    Row(ExtractName(doc.text), doc.fileName, score)
  }

  /** The unsorted table, in upload order. */
  function ScoredRows(docs: seq<Document>, scores: seq<real>): (rows: seq<Row<real>>)
    requires |scores| == |docs|
    ensures |rows| == |docs|
    ensures forall i :: 0 <= i < |docs| ==> rows[i] == ScoredRow(docs[i], scores[i])
  {
    seq(|docs|, i requires 0 <= i < |docs| => ScoredRow(docs[i], scores[i]))
  }

  ghost predicate NonIncreasing(rows: seq<Row<real>>)
  {
    forall i, j :: 0 <= i < j < |rows| ==> rows[i].data >= rows[j].data
  }

  /** Exchanges two rows; the table keeps the same rows. */
  method Swap(a: array<Row<real>>, i: int, j: int)
    requires 0 <= i < a.Length && 0 <= j < a.Length
    modifies a
    ensures a[..] == old(a[..])[i := old(a[j])][j := old(a[i])]
    ensures multiset(a[..]) == old(multiset(a[..]))
  {
    a[i], a[j] := a[j], a[i];
  }

  /**
   * `sort_values(by="Match Score (%)", ascending=False)`: afterwards the
   * scores do not increase and the array holds the same rows. The library's
   * default sort is not stable, so nothing is said about the order of rows
   * with equal scores; this insertion sort picks one such order.
   */
  method SortByScoreDescending(a: array<Row<real>>)
    modifies a
    ensures NonIncreasing(a[..])
    ensures multiset(a[..]) == old(multiset(a[..]))
  {
    var i := 0;
    while i < a.Length
      invariant 0 <= i <= a.Length
      invariant NonIncreasing(a[..i])
      invariant multiset(a[..]) == old(multiset(a[..]))
    {
      var j := i;
      while 0 < j && a[j - 1].data < a[j].data
        invariant 0 <= j <= i
        invariant forall p, q :: 0 <= p < q <= i && p != j && q != j ==> a[p].data >= a[q].data
        invariant forall q :: j < q <= i ==> a[j].data >= a[q].data
        invariant multiset(a[..]) == old(multiset(a[..]))
      {
        Swap(a, j - 1, j);
        j := j - 1;
      }
      i := i + 1;
    }
    assert a[..] == a[..a.Length];
  }

  /**
   * `rank_resumes` after the scores are known: empty without resumes,
   * otherwise the rows of all resumes, by score, highest first.
   */
  method RankResumes(docs: seq<Document>, scores: seq<real>) returns (ranking: seq<Row<real>>)
    requires |scores| == |docs|
    ensures docs == [] ==> ranking == []
    ensures NonIncreasing(ranking)
    ensures multiset(ranking) == multiset(ScoredRows(docs, scores))
  {
    if docs == [] {
      return [];
    }
    var rows := ScoredRows(docs, scores);
    var a := new Row<real>[|rows|](i requires 0 <= i < |rows| => rows[i]);
    assert a[..] == rows;
    SortByScoreDescending(a);
    ranking := a[..];
  }

  /** The ranking has one row per resume. */
  lemma RankingLength(docs: seq<Document>, scores: seq<real>, ranking: seq<Row<real>>)
    requires |scores| == |docs|
    requires multiset(ranking) == multiset(ScoredRows(docs, scores))
    ensures |ranking| == |docs|
  {
    assert |multiset(ranking)| == |ranking|;
    assert |multiset(ScoredRows(docs, scores))| == |docs|;
  }

  /** Every row of the ranking is the row of some resume, with its score. */
  lemma RankingRowsComeFromResumes(docs: seq<Document>, scores: seq<real>, ranking: seq<Row<real>>)
    requires |scores| == |docs|
    requires multiset(ranking) == multiset(ScoredRows(docs, scores))
    ensures forall i :: 0 <= i < |ranking| ==>
      exists k :: 0 <= k < |docs| && ranking[i] == ScoredRow(docs[k], scores[k])
  {
    var rows := ScoredRows(docs, scores);
    forall i | 0 <= i < |ranking|
      ensures exists k :: 0 <= k < |docs| && ranking[i] == ScoredRow(docs[k], scores[k])
    {
      assert ranking[i] in multiset(ranking);
      assert ranking[i] in rows;
      var k :| 0 <= k < |rows| && rows[k] == ranking[i];
    }
  }
}
