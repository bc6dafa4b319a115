/**
 * The tables the application builds and the left join it performs on them.
 * Every table is keyed by the two columns Name and Resume; a row is the key
 * and the row's other columns (`data`). `pd.merge(left, right,
 * on=["Name", "Resume"], how="left")` keeps the left table's rows in order
 * and gives each one row per matching right row, in the right table's
 * order, or a single row with nulls in the right table's columns when
 * nothing matches.
 */
module Tables {
  import opened Wrappers

  datatype Row<T> = Row(name: string, resume: string, data: T)

  type Key = (string, string)

  function KeyOf<T>(row: Row<T>): Key
  {
    (row.name, row.resume)
  }

  /** No two rows of the table share a key. */
  ghost predicate UniqueKeys<T>(rows: seq<Row<T>>)
  {
    forall i, j :: 0 <= i < |rows| && 0 <= j < |rows| && KeyOf(rows[i]) == KeyOf(rows[j]) ==> i == j
  }

  /** The other columns of the right rows with key `k`, in table order. */
  function Matching<B>(right: seq<Row<B>>, k: Key): (ms: seq<B>)
    ensures |ms| <= |right|
    ensures forall m :: m in ms ==> exists j :: 0 <= j < |right| && KeyOf(right[j]) == k && right[j].data == m
  {
    if right == [] then []
    else
      var last := right[|right| - 1];
      Matching(right[..|right| - 1], k) + (if KeyOf(last) == k then [last.data] else [])
  }

  /** The rows the join emits for one left row. */
  function JoinRow<A, B>(left: Row<A>, right: seq<Row<B>>): (rows: seq<Row<(A, Option<B>)>>)
    ensures 1 <= |rows|
    ensures forall j :: 0 <= j < |rows| ==>
      KeyOf(rows[j]) == KeyOf(left) && rows[j].data.0 == left.data
    ensures forall j :: 0 <= j < |rows| ==>
      (rows[j].data.1.None? <==> Matching(right, KeyOf(left)) == [])
    ensures var ms := Matching(right, KeyOf(left));
      ms != [] ==> |rows| == |ms| && forall j :: 0 <= j < |rows| ==> rows[j].data.1 == Some(ms[j])
  {
    var ms := Matching(right, KeyOf(left));
    if |ms| == 0 then [Row(left.name, left.resume, (left.data, None))]
    else seq(|ms|, k requires 0 <= k < |ms| => Row(left.name, left.resume, (left.data, Some(ms[k]))))
  }

  /** The left join, row by row of the left table. */
  function LeftJoin<A, B>(left: seq<Row<A>>, right: seq<Row<B>>): (joined: seq<Row<(A, Option<B>)>>)
    ensures |left| <= |joined|
    ensures joined == [] <==> left == []
  {
    if left == [] then []
    else LeftJoin(left[..|left| - 1], right) + JoinRow(left[|left| - 1], right)
  }

  /** The matches of one key, collected by a scan of the right table. */
  method CollectMatches<B>(right: seq<Row<B>>, k: Key) returns (ms: seq<B>)
    ensures ms == Matching(right, k)
  {
    ms := [];
    for j := 0 to |right|
      invariant ms == Matching(right[..j], k)
    {
      if KeyOf(right[j]) == k {
        ms := ms + [right[j].data];
      }
      assert right[..j + 1][..j] == right[..j];
    }
    assert right[..|right|] == right;
  }

  /** The output rows of one left row. */
  method JoinOne<A, B>(row: Row<A>, right: seq<Row<B>>) returns (rows: seq<Row<(A, Option<B>)>>)
    ensures rows == JoinRow(row, right)
  {
    var ms := CollectMatches(right, KeyOf(row));
    if |ms| == 0 {
      rows := [Row(row.name, row.resume, (row.data, None))];
    } else {
      rows := [];
      for k := 0 to |ms|
        invariant rows == JoinRow(row, right)[..k]
      {
        rows := rows + [Row(row.name, row.resume, (row.data, Some(ms[k])))];
      }
    }
  }

  /** `pd.merge(left, right, on=["Name", "Resume"], how="left")`. */
  method Merge<A, B>(left: seq<Row<A>>, right: seq<Row<B>>) returns (joined: seq<Row<(A, Option<B>)>>)
    ensures joined == LeftJoin(left, right)
  {
    joined := [];
    for i := 0 to |left|
      invariant joined == LeftJoin(left[..i], right)
    {
      var rows := JoinOne(left[i], right);
      joined := joined + rows;
      assert left[..i + 1][..i] == left[..i];
    }
    assert left[..|left|] == left;
  }

  /** What a left row turns into in the output: itself, once per match and
      at least once. */
  function Multiplicity<A, B>(row: Row<A>, right: seq<Row<B>>): (n: nat)
    ensures n >= 1
  {
    var m := |Matching(right, KeyOf(row))|;
    if m == 0 then 1 else m
  }

  /** The left table with every row repeated its multiplicity times, in place. */
  function Stretch<A, B>(left: seq<Row<A>>, right: seq<Row<B>>): seq<Row<A>>
  {
    if left == [] then []
    else
      var last := left[|left| - 1];
      Stretch(left[..|left| - 1], right) + seq(Multiplicity(last, right), _ => last)
  }

  /** The output row with the right table's columns dropped again. */
  function LeftPart<A, B>(row: Row<(A, Option<B>)>): Row<A>
  {
    Row(row.name, row.resume, row.data.0)
  }

  function LeftParts<A, B>(rows: seq<Row<(A, Option<B>)>>): (r: seq<Row<A>>)
    ensures |r| == |rows|
    ensures forall j :: 0 <= j < |rows| ==> r[j] == LeftPart(rows[j])
  {
    seq(|rows|, j requires 0 <= j < |rows| => LeftPart(rows[j]))
  }

  /** The join never drops or reorders a left row: dropping the added
      columns gives back the left table, each row repeated once per match
      and at least once. */
  lemma {:induction false} LeftJoinKeepsLeftRows<A, B>(left: seq<Row<A>>, right: seq<Row<B>>)
    ensures LeftParts(LeftJoin(left, right)) == Stretch(left, right)
  {
    if left != [] {
      var init, last := left[..|left| - 1], left[|left| - 1];
      LeftJoinKeepsLeftRows(init, right);
      var tail := JoinRow(last, right);
      assert LeftParts(tail) == seq(Multiplicity(last, right), _ => last);
      assert LeftParts(LeftJoin(init, right) + tail) == LeftParts(LeftJoin(init, right)) + LeftParts(tail);
    }
  }

  /** The stretched table is at least as long as the left table. */
  lemma {:induction false} StretchLength<A, B>(left: seq<Row<A>>, right: seq<Row<B>>)
    ensures |Stretch(left, right)| >= |left|
  {
    if left != [] {
      StretchLength(left[..|left| - 1], right);
    }
  }

  /** A row of the stretched table is a row of the table. */
  lemma {:induction false} StretchMembers<A, B>(left: seq<Row<A>>, right: seq<Row<B>>, row: Row<A>)
    requires row in Stretch(left, right)
    ensures row in left
  {
    var init := left[..|left| - 1];
    if row in Stretch(init, right) {
      StretchMembers(init, right, row);
      assert init <= left;
    } else {
      assert row == left[|left| - 1];
    }
  }

  /** A row has a null right part exactly when no right row has its key, and
      a non-null right part is the data of a right row with its key. */
  lemma {:induction false} LeftJoinNullFill<A, B>(left: seq<Row<A>>, right: seq<Row<B>>)
    ensures forall j :: 0 <= j < |LeftJoin(left, right)| ==>
      var row := LeftJoin(left, right)[j];
      (row.data.1.None? <==> |Matching(right, KeyOf(row))| == 0)
      && (row.data.1.Some? ==> row.data.1.value in Matching(right, KeyOf(row)))
  {
    if left != [] {
      LeftJoinNullFill(left[..|left| - 1], right);
    }
  }

  /** The first match, the one the join uses when keys are unique. */
  function Lookup<B>(right: seq<Row<B>>, k: Key): (r: Option<B>)
    ensures r.None? <==> |Matching(right, k)| == 0
  {
    var ms := Matching(right, k);
    if |ms| == 0 then None else Some(ms[0])
  }

  /** With unique keys in the right table, at most one row matches, and it
      is the one with that key. */
  lemma {:induction false} MatchingUnique<B>(right: seq<Row<B>>, k: Key)
    requires UniqueKeys(right)
    ensures |Matching(right, k)| <= 1
    ensures forall i :: 0 <= i < |right| && KeyOf(right[i]) == k ==> Matching(right, k) == [right[i].data]
    ensures (forall i :: 0 <= i < |right| ==> KeyOf(right[i]) != k) ==> Matching(right, k) == []
  {
    if right != [] {
      var init := right[..|right| - 1];
      assert UniqueKeys(init);
      MatchingUnique(init, k);
      if KeyOf(right[|right| - 1]) == k {
        assert forall i :: 0 <= i < |init| ==> KeyOf(init[i]) != k;
      }
    }
  }

  /** With unique keys in the right table the join is row for row: same
      length, same order, each row extended by its match or by a null. */
  lemma {:induction false} LeftJoinUniqueKeys<A, B>(left: seq<Row<A>>, right: seq<Row<B>>)
    requires UniqueKeys(right)
    ensures |LeftJoin(left, right)| == |left|
    ensures forall i :: 0 <= i < |left| ==>
      LeftJoin(left, right)[i] == Row(left[i].name, left[i].resume, (left[i].data, Lookup(right, KeyOf(left[i]))))
  {
    if left != [] {
      var init, last := left[..|left| - 1], left[|left| - 1];
      LeftJoinUniqueKeys(init, right);
      MatchingUnique(right, KeyOf(last));
      var tail := JoinRow(last, right);
      assert tail == [Row(last.name, last.resume, (last.data, Lookup(right, KeyOf(last))))];
      var joined := LeftJoin(left, right);
      assert joined == LeftJoin(init, right) + tail;
      forall i | 0 <= i < |left|
        ensures joined[i] == Row(left[i].name, left[i].resume, (left[i].data, Lookup(right, KeyOf(left[i]))))
      {
        if i < |init| {
          assert left[i] == init[i];
        }
      }
    }
  }

  /** When every left row has the key `k` and `m` right rows carry it, the
      join has `m` rows for each left row. */
  lemma {:induction false} LeftJoinOneKey<A, B>(left: seq<Row<A>>, right: seq<Row<B>>, k: Key)
    requires forall i :: 0 <= i < |left| ==> KeyOf(left[i]) == k
    requires |Matching(right, k)| >= 1
    ensures |LeftJoin(left, right)| == |left| * |Matching(right, k)|
  {
    if left != [] {
      LeftJoinOneKey(left[..|left| - 1], right, k);
      var m := |Matching(right, k)|;
      assert (|left| - 1) * m + m == |left| * m;
    }
  }

  /** A right row is among the matches of its own key. */
  lemma {:induction false} MatchingContains<B>(right: seq<Row<B>>, i: nat)
    requires i < |right|
    ensures right[i].data in Matching(right, KeyOf(right[i]))
  {
    if i < |right| - 1 {
      MatchingContains(right[..|right| - 1], i);
    }
  }

  /** The keys present in a table. */
  function KeysOf<T>(rows: seq<Row<T>>): (keys: set<Key>)
    ensures forall i :: 0 <= i < |rows| ==> KeyOf(rows[i]) in keys
  {
    set i | 0 <= i < |rows| :: KeyOf(rows[i])
  }

  lemma KeysOfAppend<T>(a: seq<Row<T>>, b: seq<Row<T>>)
    ensures KeysOf(a + b) == KeysOf(a) + KeysOf(b)
  {
    forall k | k in KeysOf(a + b) ensures k in KeysOf(a) + KeysOf(b) {
      var i :| 0 <= i < |a + b| && KeyOf((a + b)[i]) == k;
      if i >= |a| {
        assert (a + b)[i] == b[i - |a|];
      }
    }
    forall k | k in KeysOf(a) ensures k in KeysOf(a + b) {
      var i :| 0 <= i < |a| && KeyOf(a[i]) == k;
      assert (a + b)[i] == a[i];
    }
    forall k | k in KeysOf(b) ensures k in KeysOf(a + b) {
      var i :| 0 <= i < |b| && KeyOf(b[i]) == k;
      assert (a + b)[|a| + i] == b[i];
    }
  }

  /** The rows emitted for one left row all carry its key. */
  lemma KeysOfJoinRow<A, B>(row: Row<A>, right: seq<Row<B>>)
    ensures KeysOf(JoinRow(row, right)) == {KeyOf(row)}
  {
    var rows := JoinRow(row, right);
    assert KeyOf(rows[0]) == KeyOf(row);
    assert forall j :: 0 <= j < |rows| ==> KeyOf(rows[j]) == KeyOf(row);
  }

  /** The output carries exactly the keys of the left table. */
  lemma {:induction false} LeftJoinKeys<A, B>(left: seq<Row<A>>, right: seq<Row<B>>)
    ensures KeysOf(LeftJoin(left, right)) == KeysOf(left)
  {
    if left != [] {
      var init, last := left[..|left| - 1], left[|left| - 1];
      LeftJoinKeys(init, right);
      KeysOfAppend(LeftJoin(init, right), JoinRow(last, right));
      KeysOfJoinRow(last, right);
      KeysOfAppend(init, [last]);
      assert init + [last] == left;
      assert KeysOf([last]) == {KeyOf(last)};
    }
  }

  /** With unique keys, looking up a row's own key finds that row. */
  lemma LookupOwnKey<B>(right: seq<Row<B>>, i: nat)
    requires UniqueKeys(right)
    requires i < |right|
    ensures Lookup(right, KeyOf(right[i])) == Some(right[i].data)
  {
    MatchingUnique(right, KeyOf(right[i]));
  }

  /** When every right row has the key `k`, all of them match it. */
  lemma {:induction false} MatchingAllSameKey<B>(right: seq<Row<B>>, k: Key)
    requires forall i :: 0 <= i < |right| ==> KeyOf(right[i]) == k
    ensures |Matching(right, k)| == |right|
  {
    if right != [] {
      MatchingAllSameKey(right[..|right| - 1], k);
    }
  }

  /** A table whose keys are all `k` has only `k` among its keys, and back. */
  lemma SingleKey<T>(rows: seq<Row<T>>, k: Key)
    requires KeysOf(rows) <= {k}
    ensures forall i :: 0 <= i < |rows| ==> KeyOf(rows[i]) == k
  {
  }
}
