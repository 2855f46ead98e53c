/**
 * The tabular exporter: the aggregate mapping flattened into rows
 * (Author, Project, Month, Commits), one per leaf. Row order follows the
 * dictionary traversal and is not part of the contract, so the properties
 * below speak of which rows there are, not of their order.
 */
module Export {
  import opened Classifier
  import opened Aggregation

  datatype Row = Row(author: string, project: string, month: string, commits: nat)

  function Key(r: Row): Triple {
    Triple(r.author, r.project, r.month)
  }

  predicate DistinctKeys(rows: seq<Row>) {
    forall i, j :: 0 <= i < j < |rows| ==> Key(rows[i]) != Key(rows[j])
  }

  /** The (author, project, month) triples the rows are about. */
  function Keys(rows: seq<Row>): set<Triple> {
    set i | 0 <= i < |rows| :: Key(rows[i])
  }

  /** `rows` lists every leaf of `data` exactly once, with the leaf's count. */
  predicate IsTableOf(rows: seq<Row>, data: Counts) {
    && DistinctKeys(rows)
    && Keys(rows) == Leaves(data)
    && (forall i :: 0 <= i < |rows| ==> rows[i].commits == Leaf(data, Key(rows[i])))
  }

  /** convert_to_dataframe: one row appended per (author, project, month) leaf. */
  method Flatten(data: Counts) returns (rows: seq<Row>)
    ensures IsTableOf(rows, data)
    ensures |rows| == |Leaves(data)|
  {
    rows := [];
    var leaves := Leaves(data);
    var todo := leaves;
    while todo != {}
      invariant todo <= leaves
      invariant DistinctKeys(rows)
      invariant Keys(rows) == leaves - todo
      invariant forall i :: 0 <= i < |rows| ==> rows[i].commits == Leaf(data, Key(rows[i]))
      decreases todo
    {
      var t :| t in todo;
      AppendRow(data, leaves, todo, rows, t);
      rows := rows + [Row(t.author, t.project, t.month, Leaf(data, t))];
      todo := todo - {t};
    }
    DistinctKeysCount(rows);
  }

  /** One step of Flatten keeps its loop invariant. */
  lemma AppendRow(data: Counts, leaves: set<Triple>, todo: set<Triple>, rows: seq<Row>, t: Triple)
    requires t in todo && todo <= leaves
    requires DistinctKeys(rows) && Keys(rows) == leaves - todo
    requires forall i :: 0 <= i < |rows| ==> rows[i].commits == Leaf(data, Key(rows[i]))
    ensures var rows' := rows + [Row(t.author, t.project, t.month, Leaf(data, t))];
      && DistinctKeys(rows')
      && Keys(rows') == leaves - (todo - {t})
      && forall i :: 0 <= i < |rows'| ==> rows'[i].commits == Leaf(data, Key(rows'[i]))
  {
    var row := Row(t.author, t.project, t.month, Leaf(data, t));
    assert Key(row) == t;
    assert leaves - (todo - {t}) == (leaves - todo) + {t};
    KeysSnoc(rows, row);
    DistinctSnoc(rows, row);
  }

  /** Rows with distinct keys are as many as their keys. */
  lemma {:induction false} DistinctKeysCount(rows: seq<Row>)
    requires DistinctKeys(rows)
    ensures |Keys(rows)| == |rows|
  {
    if rows != [] {
      var n := |rows| - 1;
      assert rows == rows[..n] + [rows[n]];
      KeysSnoc(rows[..n], rows[n]);
      DistinctKeysCount(rows[..n]);
    }
  }

  lemma DistinctSnoc(rows: seq<Row>, row: Row)
    requires DistinctKeys(rows) && Key(row) !in Keys(rows)
    ensures DistinctKeys(rows + [row])
  {
    var r := rows + [row];
    forall i, j | 0 <= i < j < |r| ensures Key(r[i]) != Key(r[j]) {
      if j == |rows| {
        assert Key(rows[i]) in Keys(rows);
      } else {
        assert r[i] == rows[i] && r[j] == rows[j];
      }
    }
  }

  lemma KeysSnoc(rows: seq<Row>, row: Row)
    ensures Keys(rows + [row]) == Keys(rows) + {Key(row)}
  {
    var r := rows + [row];
    assert Key(r[|rows|]) == Key(row);
    forall t | t in Keys(rows) ensures t in Keys(r) {
      var i :| 0 <= i < |rows| && Key(rows[i]) == t;
      assert Key(r[i]) == t;
    }
  }

  /** The total of the `Commits` column over the rows for `t`. */
  function RowTotal(rows: seq<Row>, t: Triple): nat {
    if rows == [] then 0
    else RowTotal(rows[..|rows| - 1], t) + (if Key(rows[|rows| - 1]) == t then rows[|rows| - 1].commits else 0)
  }

  /** The total of the whole `Commits` column. */
  function SumCommits(rows: seq<Row>): nat {
    if rows == [] then 0 else SumCommits(rows[..|rows| - 1]) + rows[|rows| - 1].commits
  }

  lemma {:induction false} RowTotalAbsent(rows: seq<Row>, t: Triple)
    requires forall i :: 0 <= i < |rows| ==> Key(rows[i]) != t
    ensures RowTotal(rows, t) == 0
  {
    if rows != [] {
      RowTotalAbsent(rows[..|rows| - 1], t);
    }
  }

  lemma {:induction false} RowTotalUnique(rows: seq<Row>, t: Triple, k: nat)
    requires DistinctKeys(rows) && k < |rows| && Key(rows[k]) == t
    ensures RowTotal(rows, t) == rows[k].commits
  {
    var n := |rows| - 1;
    if k == n {
      RowTotalAbsent(rows[..n], t);
    } else {
      RowTotalUnique(rows[..n], t, k);
    }
  }

  /** Re-deriving the total per (author, project, month) from the table gives
      back the count in the mapping, for every triple. */
  lemma RowTotalIsLeaf(rows: seq<Row>, data: Counts, t: Triple)
    requires WellFormed(data) && IsTableOf(rows, data)
    ensures RowTotal(rows, t) == Leaf(data, t)
  {
    LeavesArePositive(data, t);
    if t in Leaves(data) {
      assert t in Keys(rows);
      var k :| 0 <= k < |rows| && Key(rows[k]) == t;
      RowTotalUnique(rows, t, k);
    } else {
      forall i | 0 <= i < |rows| ensures Key(rows[i]) != t {
        assert Key(rows[i]) in Keys(rows);
      }
      RowTotalAbsent(rows, t);
    }
  }

  /** Reading the table back into a mapping, row by row. */
  function Rebuild(rows: seq<Row>): (data: Counts)
    ensures forall t :: Leaf(data, t) == RowTotal(rows, t)
    ensures (forall i :: 0 <= i < |rows| ==> rows[i].commits >= 1) ==> WellFormed(data)
  {
    if rows == [] then map[]
    else
      var last := rows[|rows| - 1];
      var prior := Rebuild(rows[..|rows| - 1]);
      if forall i :: 0 <= i < |rows| ==> rows[i].commits >= 1 then
        BumpKeepsWellFormed(prior, Key(last), last.commits);
        Bump(prior, Key(last), last.commits)
      else
        Bump(prior, Key(last), last.commits)
  }

  /** Export then import is the identity on well-formed mappings. */
  lemma RebuildFlatten(rows: seq<Row>, data: Counts)
    requires WellFormed(data) && IsTableOf(rows, data)
    ensures Rebuild(rows) == data
  {
    forall i | 0 <= i < |rows| ensures rows[i].commits >= 1 {
      assert Key(rows[i]) in Keys(rows);
      LeavesArePositive(data, Key(rows[i]));
    }
    forall t ensures Leaf(Rebuild(rows), t) == Leaf(data, t) {
      RowTotalIsLeaf(rows, data, t);
    }
    LeavesDetermine(Rebuild(rows), data);
  }

  /** Rows with distinct keys whose per-triple totals count the triples of
      `ts` have a column total equal to the length of `ts`. */
  lemma {:induction false} SumCountsTriples(rows: seq<Row>, ts: seq<Triple>)
    requires DistinctKeys(rows)
    requires forall t :: RowTotal(rows, t) == Occurrences(ts, t)
    ensures SumCommits(rows) == |ts|
    decreases |rows|
  {
    if rows == [] {
      OccurrencesOfHead(ts);
    } else {
      var n := |rows| - 1;
      var k := Key(rows[n]);
      var rest := RemoveAll(ts, k);
      RowTotalAbsent(rows[..n], k);
      forall t ensures RowTotal(rows[..n], t) == Occurrences(rest, t) {
        RemoveAllCounts(ts, k, t);
      }
      SumCountsTriples(rows[..n], rest);
      RemoveAllCounts(ts, k, k);
    }
  }

  /** The sum of all leaves of the aggregate of `commits` is the number of commits. */
  lemma TableCountsEveryCommit(rows: seq<Row>, data: Counts, prefix: string, commits: seq<Commit>)
    requires WellFormed(data) && IsTableOf(rows, data)
    requires Tallies(data, ClassifyAll(prefix, commits))
    ensures SumCommits(rows) == |commits|
  {
    forall t ensures RowTotal(rows, t) == Occurrences(ClassifyAll(prefix, commits), t) {
      RowTotalIsLeaf(rows, data, t);
    }
    SumCountsTriples(rows, ClassifyAll(prefix, commits));
  }
}
