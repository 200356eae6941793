/** `pd.merge(left, right, on=keys, how="inner")` (app_challenge3.py:94-110):
    every pair of a left row and a right row whose key cells agree gives one
    output row, the left row followed by the right row's non-key cells. Rows
    come in left order, each left row's partners in right order. Key cells are
    compared as cells, so two missing keys match, as they do in pandas. */
module Merge {
  import opened Sequences
  import opened Tables

  /** The right-hand columns the merge adds: the non-key ones, in order. */
  function Extra(columns: seq<string>, keys: seq<string>): (r: seq<string>)
    ensures forall c :: c in r <==> c in columns && c !in keys
  {
    Filter(columns, (c: string) => c !in keys)
  }

  /** With the keys first, a three-column right side adds its third column. */
  lemma ExtraAfterKeys(k1: string, k2: string, c: string)
    requires c != k1 && c != k2
    ensures Extra([k1, k2, c], [k1, k2]) == [c]
  {
    var keep := (n: string) => n !in [k1, k2];
    var s := [k1, k2, c];
    assert s[1..] == [k2, c] && s[1..][1..] == [c] && [c][1..] == [];
    assert Filter(s, keep) == Filter([k2, c], keep) == Filter([c], keep);
  }

  /** The key tuple of every row, in row order. */
  function KeysOf(columns: seq<string>, rows: seq<Row>, keys: seq<string>): (r: seq<Row>)
    ensures |r| == |rows|
    ensures forall i :: 0 <= i < |rows| ==> r[i] == Cells(columns, rows[i], keys)
  {
    Map(rows, (row: Row) => Cells(columns, row, keys))
  }

  /** The set of key tuples a table holds. */
  ghost function KeySet(t: Table, keys: seq<string>): set<Row> {
    set row | row in t.rows :: Cells(t.columns, row, keys)
  }

  /** The right rows whose key is `key`, in right order. */
  function Partners(columns: seq<string>, rows: seq<Row>, keys: seq<string>, key: Row): (r: seq<Row>)
    ensures forall row :: row in r <==> row in rows && Cells(columns, row, keys) == key
  {
    Filter(rows, (row: Row) => Cells(columns, row, keys) == key)
  }

  /** One left row joined with all of its partners, in right order. */
  function JoinOne(lcols: seq<string>, lrow: Row, rcols: seq<string>, rrows: seq<Row>,
                   keys: seq<string>, extra: seq<string>): (r: seq<Row>)
    ensures |r| == |Partners(rcols, rrows, keys, Cells(lcols, lrow, keys))|
    ensures forall row | row in r :: |row| == |lrow| + |extra|
  {
    Map(Partners(rcols, rrows, keys, Cells(lcols, lrow, keys)), (p: Row) => lrow + Cells(rcols, p, extra))
  }

  lemma JoinOneMembership(lcols: seq<string>, lrow: Row, rcols: seq<string>, rrows: seq<Row>,
                          keys: seq<string>, extra: seq<string>, row: Row)
    ensures row in JoinOne(lcols, lrow, rcols, rrows, keys, extra) <==>
      exists p :: p in rrows && Cells(rcols, p, keys) == Cells(lcols, lrow, keys) && row == lrow + Cells(rcols, p, extra)
  {
    var partners := Partners(rcols, rrows, keys, Cells(lcols, lrow, keys));
    var r := JoinOne(lcols, lrow, rcols, rrows, keys, extra);
    if row in r {
      var k :| 0 <= k < |r| && r[k] == row;
      assert partners[k] in partners;
    }
    if exists p :: p in rrows && Cells(rcols, p, keys) == Cells(lcols, lrow, keys) && row == lrow + Cells(rcols, p, extra) {
      var p :| p in rrows && Cells(rcols, p, keys) == Cells(lcols, lrow, keys) && row == lrow + Cells(rcols, p, extra);
      var k :| 0 <= k < |partners| && partners[k] == p;
      assert r[k] == row;
    }
  }

  /** The merged rows, left row by left row. */
  function MergeRows(lcols: seq<string>, lrows: seq<Row>, rcols: seq<string>, rrows: seq<Row>,
                     keys: seq<string>, extra: seq<string>): (r: seq<Row>)
    requires forall l | l in lrows :: |l| == |lcols|
    ensures forall row | row in r :: |row| == |lcols| + |extra|
    decreases |lrows|
  {
    if |lrows| == 0 then []
    else
      assert lrows[0] in lrows;
      assert forall l | l in lrows[1..] :: l in lrows;
      JoinOne(lcols, lrows[0], rcols, rrows, keys, extra) + MergeRows(lcols, lrows[1..], rcols, rrows, keys, extra)
  }

  lemma {:induction false} MergeRowsMembership(lcols: seq<string>, lrows: seq<Row>, rcols: seq<string>, rrows: seq<Row>,
                                               keys: seq<string>, extra: seq<string>, row: Row)
    requires forall l | l in lrows :: |l| == |lcols|
    ensures row in MergeRows(lcols, lrows, rcols, rrows, keys, extra) <==>
      exists l :: l in lrows && row in JoinOne(lcols, l, rcols, rrows, keys, extra)
    decreases |lrows|
  {
    if |lrows| > 0 {
      assert forall l | l in lrows[1..] :: l in lrows;
      MergeRowsMembership(lcols, lrows[1..], rcols, rrows, keys, extra, row);
      assert forall l | l in lrows :: l == lrows[0] || l in lrows[1..];
    }
  }

  /** The inner merge on `keys`. A key missing from either side is a `KeyError`. */
  function InnerMerge(left: Table, right: Table, keys: seq<string>): (r: Result<Table>)
    requires WellFormed(left) && WellFormed(right)
    ensures r.Ok? <==> (forall k | k in keys :: k in left.columns) && (forall k | k in keys :: k in right.columns)
    ensures r.Err? ==> r.error.column in keys && (r.error.column !in left.columns || r.error.column !in right.columns)
    ensures r.Ok? ==> WellFormed(r.value) && r.value.columns == left.columns + Extra(right.columns, keys)
    ensures r.Ok? ==> r.value.rows == MergeRows(left.columns, left.rows, right.columns, right.rows, keys, Extra(right.columns, keys))
  {
    var _ :- Require(left.columns, keys);
    var _ :- Require(right.columns, keys);
    var extra := Extra(right.columns, keys);
    Ok(Table(left.columns + extra, MergeRows(left.columns, left.rows, right.columns, right.rows, keys, extra)))
  }

  /** An output row is a matching pair: a left row followed by the non-key
      cells of a right row with the same key, and every such pair is output. */
  lemma MergeMembership(left: Table, right: Table, keys: seq<string>, out: Table, row: Row)
    requires WellFormed(left) && WellFormed(right)
    requires InnerMerge(left, right, keys) == Ok(out)
    ensures row in out.rows <==>
      exists l, p ::
        l in left.rows && p in right.rows && Cells(left.columns, l, keys) == Cells(right.columns, p, keys) &&
        row == l + Cells(right.columns, p, Extra(right.columns, keys))
  {
    var extra := Extra(right.columns, keys);
    MergeRowsMembership(left.columns, left.rows, right.columns, right.rows, keys, extra, row);
    if row in out.rows {
      var l :| l in left.rows && row in JoinOne(left.columns, l, right.columns, right.rows, keys, extra);
      JoinOneMembership(left.columns, l, right.columns, right.rows, keys, extra, row);
    }
    if exists l, p ::
         l in left.rows && p in right.rows &&
         Cells(left.columns, l, keys) == Cells(right.columns, p, keys) && row == l + Cells(right.columns, p, extra)
    {
      var l, p :| l in left.rows && p in right.rows &&
        Cells(left.columns, l, keys) == Cells(right.columns, p, keys) && row == l + Cells(right.columns, p, extra);
      JoinOneMembership(left.columns, l, right.columns, right.rows, keys, extra, row);
    }
  }

  /** The key of an output row is the key of its left row. */
  lemma MergedKey(left: Table, right: Table, keys: seq<string>, l: Row, p: Row)
    requires WellFormed(left) && l in left.rows
    requires forall k | k in keys :: k in left.columns
    ensures Cells(left.columns + Extra(right.columns, keys), l + Cells(right.columns, p, Extra(right.columns, keys)), keys)
      == Cells(left.columns, l, keys)
  {
    CellsInPrefix(left.columns, Extra(right.columns, keys), l, Cells(right.columns, p, Extra(right.columns, keys)), keys);
  }

  /** Join completeness: the output holds exactly the keys found on both sides. */
  lemma MergeKeySet(left: Table, right: Table, keys: seq<string>, out: Table)
    requires WellFormed(left) && WellFormed(right)
    requires InnerMerge(left, right, keys) == Ok(out)
    ensures KeySet(out, keys) == KeySet(left, keys) * KeySet(right, keys)
  {
    var extra := Extra(right.columns, keys);
    forall key | key in KeySet(out, keys)
      ensures key in KeySet(left, keys) && key in KeySet(right, keys)
    {
      var row :| row in out.rows && Cells(out.columns, row, keys) == key;
      MergeMembership(left, right, keys, out, row);
      var l, p :| l in left.rows && p in right.rows &&
        Cells(left.columns, l, keys) == Cells(right.columns, p, keys) && row == l + Cells(right.columns, p, extra);
      MergedKey(left, right, keys, l, p);
    }
    forall key | key in KeySet(left, keys) && key in KeySet(right, keys)
      ensures key in KeySet(out, keys)
    {
      var l :| l in left.rows && Cells(left.columns, l, keys) == key;
      var p :| p in right.rows && Cells(right.columns, p, keys) == key;
      var row := l + Cells(right.columns, p, extra);
      MergeMembership(left, right, keys, out, row);
      MergedKey(left, right, keys, l, p);
    }
  }

  /** Every output row starts with a whole left row. */
  lemma MergedLeftRows(left: Table, right: Table, keys: seq<string>, out: Table)
    requires WellFormed(left) && WellFormed(right)
    requires InnerMerge(left, right, keys) == Ok(out)
    ensures forall row | row in out.rows :: |left.columns| <= |row| && row[..|left.columns|] in left.rows
  {
    var extra := Extra(right.columns, keys);
    forall row | row in out.rows
      ensures |left.columns| <= |row| && row[..|left.columns|] in left.rows
    {
      MergeMembership(left, right, keys, out, row);
      var l, p :| l in left.rows && p in right.rows &&
        Cells(left.columns, l, keys) == Cells(right.columns, p, keys) && row == l + Cells(right.columns, p, extra);
      assert row[..|left.columns|] == l;
    }
  }

  /** Two tables whose rows carry the same keys, row by row, hold the same
      key set. */
  lemma KeySetRowwise(t: Table, s: Table, keys: seq<string>)
    requires |t.rows| == |s.rows|
    requires forall i :: 0 <= i < |t.rows| ==> Cells(t.columns, t.rows[i], keys) == Cells(s.columns, s.rows[i], keys)
    ensures KeySet(t, keys) == KeySet(s, keys)
  {
    forall key | key in KeySet(t, keys) ensures key in KeySet(s, keys) {
      var row :| row in t.rows && Cells(t.columns, row, keys) == key;
      var i :| 0 <= i < |t.rows| && t.rows[i] == row;
      assert s.rows[i] in s.rows;
    }
    forall key | key in KeySet(s, keys) ensures key in KeySet(t, keys) {
      var row :| row in s.rows && Cells(s.columns, row, keys) == key;
      var i :| 0 <= i < |s.rows| && s.rows[i] == row;
      assert t.rows[i] in t.rows;
    }
  }

  /** Selecting columns that include the keys keeps the key set. */
  lemma SelectKeySet(t: Table, wanted: seq<string>, keys: seq<string>, s: Table)
    requires WellFormed(t) && Select(t, wanted) == Ok(s)
    requires forall k | k in keys :: k in wanted
    ensures KeySet(s, keys) == KeySet(t, keys)
  {
    forall key | key in KeySet(s, keys)
      ensures key in KeySet(t, keys)
    {
      var row :| row in s.rows && Cells(s.columns, row, keys) == key;
      var i :| 0 <= i < |s.rows| && s.rows[i] == row;
      CellsOfCells(t.columns, t.rows[i], wanted, keys);
      assert t.rows[i] in t.rows;
    }
    forall key | key in KeySet(t, keys)
      ensures key in KeySet(s, keys)
    {
      var row :| row in t.rows && Cells(t.columns, row, keys) == key;
      var i :| 0 <= i < |t.rows| && t.rows[i] == row;
      CellsOfCells(t.columns, row, wanted, keys);
      assert s.rows[i] in s.rows;
    }
  }

  /** No two rows of the table share a key. */
  predicate UniqueKeys(t: Table, keys: seq<string>) {
    forall i, j :: 0 <= i < j < |t.rows| ==> Cells(t.columns, t.rows[i], keys) != Cells(t.columns, t.rows[j], keys)
  }

  /** With unique keys on the right, a left row has one partner if its key
      occurs on the right and none otherwise. */
  lemma {:induction false} UniquePartners(columns: seq<string>, rows: seq<Row>, keys: seq<string>, key: Row)
    requires forall i, j :: 0 <= i < j < |rows| ==> Cells(columns, rows[i], keys) != Cells(columns, rows[j], keys)
    ensures |Partners(columns, rows, keys, key)| == if key in KeysOf(columns, rows, keys) then 1 else 0
  {
    if |rows| > 0 {
      var rest := rows[1..];
      assert KeysOf(columns, rows, keys) == [Cells(columns, rows[0], keys)] + KeysOf(columns, rest, keys);
      UniquePartners(columns, rest, keys, key);
    }
  }

  /** With unique keys on the right, every left row whose key occurs on the
      right is output exactly once and every other left row not at all. */
  lemma {:induction false} UniqueMergeCount(lcols: seq<string>, lrows: seq<Row>, rcols: seq<string>, rrows: seq<Row>,
                                            keys: seq<string>, extra: seq<string>)
    requires forall l | l in lrows :: |l| == |lcols|
    requires forall i, j :: 0 <= i < j < |rrows| ==> Cells(rcols, rrows[i], keys) != Cells(rcols, rrows[j], keys)
    ensures |MergeRows(lcols, lrows, rcols, rrows, keys, extra)|
      == |Filter(lrows, (l: Row) => Cells(lcols, l, keys) in KeysOf(rcols, rrows, keys))|
  {
    if |lrows| > 0 {
      assert forall l | l in lrows[1..] :: l in lrows;
      UniquePartners(rcols, rrows, keys, Cells(lcols, lrows[0], keys));
      UniqueMergeCount(lcols, lrows[1..], rcols, rrows, keys, extra);
    }
  }

  /** Consequently the merge then has no more rows than its left side. */
  lemma UniqueMergeBound(left: Table, right: Table, keys: seq<string>, out: Table)
    requires WellFormed(left) && WellFormed(right) && UniqueKeys(right, keys)
    requires InnerMerge(left, right, keys) == Ok(out)
    ensures |out.rows| <= |left.rows|
  {
    UniqueMergeCount(left.columns, left.rows, right.columns, right.rows, keys, Extra(right.columns, keys));
  }
}
