/** A dataframe that the dashboard changes in place: `energy.rename(...,
    inplace=True)` (app_challenge3.py:49-59) and the column assignment
    `combined["continent"] = ...` (app_challenge3.py:113-115). */
module Frames {
  import opened Tables

  class Frame {
    var columns: seq<string>
    var rows: seq<Row>

    ghost predicate Valid()
      reads this
    {
      WellFormed(Table(columns, rows))
    }

    /** The frame's current contents as a value. */
    function Snapshot(): Table
      reads this
    {
      Table(columns, rows)
    }

    constructor (t: Table)
      requires WellFormed(t)
      ensures Valid() && Snapshot() == t
    {
      columns := t.columns;
      rows := t.rows;
    }

    /** `rename(columns=mapping, inplace=True, errors="ignore")`: only the
        header changes, and names of `mapping` that are absent are skipped. */
    method Rename(mapping: map<string, string>)
      requires Valid()
      modifies this
      ensures Valid()
      ensures columns == Renamed(old(columns), mapping)
      ensures rows == old(rows)
    {
      columns := Renamed(columns, mapping);
    }

    /** `frame[name] = values`: overwrite or append one column, row count unchanged. */
    method AssignColumn(name: string, values: seq<Cell>)
      requires Valid() && |values| == |rows|
      modifies this
      ensures Valid()
      ensures Snapshot() == WithColumn(old(Snapshot()), name, values)
      ensures |rows| == old(|rows|)
    {
      var t := WithColumn(Table(columns, rows), name, values);
      columns, rows := t.columns, t.rows;
    }
  }
}
