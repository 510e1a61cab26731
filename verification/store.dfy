/** The persisted quiz records and the history query
    `SELECT ... ORDER BY generated_at DESC LIMIT :limit` over them. The
    table is a sequence of records in insertion order. */
module Store {

  /** One row of the `quizzes` table. `generatedAt` is the UTC timestamp as
      an integer count of clock ticks; `rawOutput` is the serialized
      payload. */
  datatype Record = Record(id: int, topic: string, generatedAt: int, rawOutput: string)

  /** Each record is at least as new as the one after it. */
  ghost predicate NewestFirst(rs: seq<Record>) {
    forall i :: 0 < i < |rs| ==> rs[i - 1].generatedAt >= rs[i].generatedAt
  }

  /** In a newest-first list every record is at least as new as every
      record after it. */
  lemma {:induction false} NewestFirstPairwise(rs: seq<Record>, i: int, j: int)
    requires NewestFirst(rs)
    requires 0 <= i <= j < |rs|
    ensures rs[i].generatedAt >= rs[j].generatedAt
    decreases j - i
  {
    if i < j {
      NewestFirstPairwise(rs, i, j - 1);
    }
  }

  /** Insert `r` into a newest-first list in front of the first record
      that is strictly older. */
  function Insert(r: Record, rs: seq<Record>): (out: seq<Record>)
    requires NewestFirst(rs)
    ensures NewestFirst(out)
    ensures multiset(out) == multiset(rs) + multiset{r}
    ensures |out| == |rs| + 1
    ensures out[0] == r || (rs != [] && out[0] == rs[0])
  {
    if rs == [] || r.generatedAt >= rs[0].generatedAt then [r] + rs
    else
      var rest := Insert(r, rs[1..]);
      assert rs == [rs[0]] + rs[1..];
      [rs[0]] + rest
  }

  /** The table ordered by `generated_at` descending. SQL leaves the order of
      equal timestamps open; this insertion sort fixes one. */
  function SortNewestFirst(rs: seq<Record>): (out: seq<Record>)
    ensures NewestFirst(out)
    ensures multiset(out) == multiset(rs)
    ensures |out| == |rs|
  {
    if rs == [] then []
    else
      assert rs == [rs[0]] + rs[1..];
      Insert(rs[0], SortNewestFirst(rs[1..]))
  }

  /** The number of rows `LIMIT limit` lets through: SQLite reads a negative
      limit as no limit at all. */
  function RowCount(total: nat, limit: int): nat {
    if 0 <= limit < total then limit else total
  }

  /** Cutting a newest-first list after `n` rows leaves only records no
      newer than every row kept. */
  lemma NewestFirstTake(sorted: seq<Record>, n: nat)
    requires NewestFirst(sorted) && n <= |sorted|
    ensures NewestFirst(sorted[..n])
    ensures forall x, y :: x in sorted[n..] && y in sorted[..n] ==> y.generatedAt >= x.generatedAt
  {
    forall x, y | x in sorted[n..] && y in sorted[..n]
      ensures y.generatedAt >= x.generatedAt
    {
      var j :| 0 <= j < |sorted[n..]| && sorted[n..][j] == x;
      var i :| 0 <= i < n && sorted[..n][i] == y;
      NewestFirstPairwise(sorted, i, n + j);
    }
  }

  /** The rows the history query returns: the `limit` newest records,
      newest first. */
  function QueryHistory(db: seq<Record>, limit: int): (rows: seq<Record>)
    ensures |rows| == RowCount(|db|, limit)
    ensures NewestFirst(rows)
    ensures multiset(rows) <= multiset(db)
    ensures forall x, y :: x in multiset(db) - multiset(rows) && y in rows ==> y.generatedAt >= x.generatedAt
  {
    var sorted := SortNewestFirst(db);
    var n := RowCount(|db|, limit);
    var rows := sorted[..n];
    var dropped := sorted[n..];
    assert sorted == rows + dropped;
    assert multiset(db) - multiset(rows) == multiset(dropped);
    NewestFirstTake(sorted, n);
    assert forall x :: x in multiset(db) - multiset(rows) ==> x in dropped;
    rows
  }

  /** A record strictly newer than every other stored record is the first
      row of any non-empty history query. */
  lemma NewestRecordFirst(db: seq<Record>, rec: Record, limit: int)
    requires forall r :: r in db ==> r.generatedAt < rec.generatedAt
    requires limit != 0
    ensures QueryHistory(db + [rec], limit) != []
    ensures QueryHistory(db + [rec], limit)[0] == rec
  {
    var all := db + [rec];
    var sorted := SortNewestFirst(all);
    assert all[|db|] == rec;
    assert rec in multiset(sorted);
    var j :| 0 <= j < |sorted| && sorted[j] == rec;
    NewestFirstPairwise(sorted, 0, j);
    assert sorted[0] in multiset(all);
    assert QueryHistory(all, limit)[0] == sorted[0];
  }
}
