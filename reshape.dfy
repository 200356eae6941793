/** The two reshaping steps of the energy pipeline: the continent column
    (app_challenge3.py:112-115) and the wide-to-long melt of the nine
    electricity sources (app_challenge3.py:117-133). */
module Reshape {
  import opened Sequences
  import opened Tables

  /** The continent of a country cell. The country classifier is a partial
      function supplied by the caller. With `not_found=None` a country it
      does not know keeps its own entry, so the cell is passed through
      unchanged; so is a cell that holds no name. */
  function ContinentOf(classify: string -> Option<string>, country: Cell): (r: Cell)
    ensures country.Some? && country.value.Text? && classify(country.value.text).Some? ==>
      r == Some(Text(classify(country.value.text).value))
    ensures !(country.Some? && country.value.Text? && classify(country.value.text).Some?) ==> r == country
  {
    match country
    case Some(Text(name)) =>
      (match classify(name)
       case Some(c) => Some(Text(c))
       case None => country)
    case _ => country
  }

  /** `coco.convert(names=t["country"], to="continent", not_found=None)`:
      one continent cell per row, in row order. */
  function ContinentColumn(t: Table, classify: string -> Option<string>): (r: Result<seq<Cell>>)
    ensures r.Ok? <==> "country" in t.columns
    ensures r.Err? ==> r.error == MissingColumn("country")
    ensures r.Ok? ==> |r.value| == |t.rows|
    ensures r.Ok? ==> forall i :: 0 <= i < |t.rows| ==> r.value[i] == ContinentOf(classify, Get(t.columns, t.rows[i], "country"))
  {
    var _ :- Require(t.columns, ["country"]);
    Ok(Map(t.rows, (row: Row) => ContinentOf(classify, Get(t.columns, row, "country"))))
  }

  /** Line 113 on values: `t["continent"] = ContinentColumn(t)`. */
  function Enrich(t: Table, classify: string -> Option<string>): (r: Result<Table>)
    requires WellFormed(t)
    ensures r.Ok? <==> "country" in t.columns
    ensures r.Ok? ==> WellFormed(r.value) && |r.value.rows| == |t.rows|
    ensures r.Ok? ==> r.value.columns == if "continent" in t.columns then t.columns else t.columns + ["continent"]
    ensures r.Ok? ==> forall i :: 0 <= i < |t.rows| ==>
      Get(r.value.columns, r.value.rows[i], "continent") == ContinentOf(classify, Get(t.columns, t.rows[i], "country"))
    ensures r.Ok? ==> forall i, c :: 0 <= i < |t.rows| && c != "continent" && c in t.columns ==>
      Get(r.value.columns, r.value.rows[i], c) == Get(t.columns, t.rows[i], c)
  {
    var values :- ContinentColumn(t, classify);
    Ok(WithColumn(t, "continent", values))
  }

  /** A country the classifier does not know is kept, and its continent
      cell repeats its country cell. */
  lemma UnmatchedCountryKeepsName(t: Table, classify: string -> Option<string>, out: Table, i: nat)
    requires WellFormed(t) && Enrich(t, classify) == Ok(out) && i < |t.rows|
    requires forall name :: Get(t.columns, t.rows[i], "country") == Some(Text(name)) ==> classify(name).None?
    ensures i < |out.rows| && Get(out.columns, out.rows[i], "continent") == Get(t.columns, t.rows[i], "country")
  {
  }

  lemma MulSucc(a: nat, b: nat)
    ensures (a + 1) * b == b + a * b
  {
  }

  /** One melted row: the id cells, the source name and its cell. */
  function MeltCell(columns: seq<string>, row: Row, idVars: seq<string>, v: string): (r: Row)
    ensures |r| == |idVars| + 2
  {
    Cells(columns, row, idVars) + [Some(Text(v)), Get(columns, row, v)]
  }

  /** All rows melted for one source, in row order. */
  function MeltColumn(columns: seq<string>, rows: seq<Row>, idVars: seq<string>, v: string): (r: seq<Row>)
    ensures |r| == |rows|
    ensures forall i :: 0 <= i < |rows| ==> r[i] == MeltCell(columns, rows[i], idVars, v)
  {
    Map(rows, (row: Row) => MeltCell(columns, row, idVars, v))
  }

  /** pandas' melt is source-major: all rows for the first value column, then
      all rows for the next one. */
  function MeltRows(columns: seq<string>, rows: seq<Row>, idVars: seq<string>, valueVars: seq<string>): (r: seq<Row>)
    ensures |r| == |valueVars| * |rows|
    ensures forall row | row in r :: |row| == |idVars| + 2
  {
    if |valueVars| == 0 then []
    else
      var rest := MeltRows(columns, rows, idVars, valueVars[1..]);
      MulSucc(|valueVars[1..]|, |rows|);
      MeltColumn(columns, rows, idVars, valueVars[0]) + rest
  }

  /** `t.melt(id_vars, value_vars, var_name, value_name)`; a missing id or
      value column is a `KeyError`. */
  function Melt(t: Table, idVars: seq<string>, valueVars: seq<string>, varName: string, valueName: string): (r: Result<Table>)
    requires WellFormed(t)
    ensures r.Ok? <==> (forall c | c in idVars :: c in t.columns) && (forall c | c in valueVars :: c in t.columns)
    ensures r.Err? ==> r.error.column !in t.columns && (r.error.column in idVars || r.error.column in valueVars)
    ensures r.Ok? ==> WellFormed(r.value) && r.value.columns == idVars + [varName, valueName]
    ensures r.Ok? ==> |r.value.rows| == |valueVars| * |t.rows|
    ensures r.Ok? ==> r.value.rows == MeltRows(t.columns, t.rows, idVars, valueVars)
  {
    var _ :- Require(t.columns, idVars);
    var _ :- Require(t.columns, valueVars);
    Ok(Table(idVars + [varName, valueName], MeltRows(t.columns, t.rows, idVars, valueVars)))
  }

  /** Reading the value column of a melted row gives the melted cell. */
  lemma MeltedValue(columns: seq<string>, row: Row, idVars: seq<string>, v: string, varName: string, valueName: string)
    requires valueName !in idVars && varName != valueName
    ensures Get(idVars + [varName, valueName], MeltCell(columns, row, idVars, v), valueName) == Get(columns, row, v)
  {
    IndexOfInSuffix(idVars, [varName, valueName], valueName);
  }

  /** Reading the source column of a melted row gives the source's name. */
  lemma MeltedSource(columns: seq<string>, row: Row, idVars: seq<string>, v: string, varName: string, valueName: string)
    requires varName !in idVars
    ensures Get(idVars + [varName, valueName], MeltCell(columns, row, idVars, v), varName) == Some(Text(v))
  {
    IndexOfInSuffix(idVars, [varName, valueName], varName);
  }

  /** The id columns of a melted row are those of the row it came from. */
  lemma MeltedIds(columns: seq<string>, row: Row, idVars: seq<string>, v: string, varName: string, valueName: string)
    ensures Cells(idVars + [varName, valueName], MeltCell(columns, row, idVars, v), idVars) == Cells(columns, row, idVars)
  {
    CellsInPrefix(idVars, [varName, valueName], Cells(columns, row, idVars), [Some(Text(v)), Get(columns, row, v)], idVars);
    CellsOfCells(columns, row, idVars, idVars);
  }

  /** The number of non-missing cells under the value columns. */
  function NonNullCells(columns: seq<string>, rows: seq<Row>, valueVars: seq<string>): (r: nat)
    ensures r <= |valueVars| * |rows|
  {
    if |valueVars| == 0 then 0
    else
      var v := valueVars[0];
      MulSucc(|valueVars[1..]|, |rows|);
      |Filter(rows, (row: Row) => Get(columns, row, v).Some?)| + NonNullCells(columns, rows, valueVars[1..])
  }

  /** The melted rows of one source whose value is present are the rows that
      have that source, melted. */
  lemma MeltColumnPresent(columns: seq<string>, rows: seq<Row>, idVars: seq<string>, v: string, varName: string, valueName: string)
    requires valueName !in idVars && varName != valueName
    ensures Filter(MeltColumn(columns, rows, idVars, v), (m: Row) => Present(idVars + [varName, valueName], m, [valueName]))
      == MeltColumn(columns, Filter(rows, (row: Row) => Get(columns, row, v).Some?), idVars, v)
  {
    var outColumns := idVars + [varName, valueName];
    var f := (row: Row) => MeltCell(columns, row, idVars, v);
    var p := (m: Row) => Present(outColumns, m, [valueName]);
    var q := (row: Row) => Get(columns, row, v).Some?;
    forall row | row in rows
      ensures q(row) == p(f(row))
    {
      MeltedValue(columns, row, idVars, v, varName, valueName);
    }
    FilterMap(rows, f, p, q);
    assert Map(rows, f) == MeltColumn(columns, rows, idVars, v);
    assert Map(Filter(rows, q), f) == MeltColumn(columns, Filter(rows, q), idVars, v);
  }

  /** After `dropna(subset=[valueName])` the long table has one row per
      non-missing source cell. */
  lemma {:induction false} MeltDropCount(columns: seq<string>, rows: seq<Row>, idVars: seq<string>, valueVars: seq<string>,
                                         varName: string, valueName: string)
    requires valueName !in idVars && varName != valueName
    ensures |Filter(MeltRows(columns, rows, idVars, valueVars), (m: Row) => Present(idVars + [varName, valueName], m, [valueName]))|
      == NonNullCells(columns, rows, valueVars)
  {
    if |valueVars| > 0 {
      var p := (m: Row) => Present(idVars + [varName, valueName], m, [valueName]);
      var head := MeltColumn(columns, rows, idVars, valueVars[0]);
      var rest := MeltRows(columns, rows, idVars, valueVars[1..]);
      FilterAppend(head, rest, p);
      MeltColumnPresent(columns, rows, idVars, valueVars[0], varName, valueName);
      MeltDropCount(columns, rows, idVars, valueVars[1..], varName, valueName);
    }
  }

  /** Every melted row is some input row melted for some listed source, and
      every such pair is there. */
  lemma {:induction false} MeltRowsMembership(columns: seq<string>, rows: seq<Row>, idVars: seq<string>, valueVars: seq<string>, m: Row)
    ensures m in MeltRows(columns, rows, idVars, valueVars) <==>
      exists row, v :: row in rows && v in valueVars && m == MeltCell(columns, row, idVars, v)
  {
    if |valueVars| > 0 {
      MeltRowsMembership(columns, rows, idVars, valueVars[1..], m);
      var head := MeltColumn(columns, rows, idVars, valueVars[0]);
      if m in head {
        var i :| 0 <= i < |rows| && head[i] == m;
        assert rows[i] in rows && valueVars[0] in valueVars;
      }
      if exists row, v :: row in rows && v in valueVars && m == MeltCell(columns, row, idVars, v) {
        var row, v :| row in rows && v in valueVars && m == MeltCell(columns, row, idVars, v);
        if v == valueVars[0] {
          var i :| 0 <= i < |rows| && rows[i] == row;
          assert head[i] == m;
        } else {
          assert v in valueVars[1..];
        }
      }
    }
  }

  /** The melted rows whose value is present are exactly the present cells,
      each melted with its source name. */
  lemma MeltPresentMembership(columns: seq<string>, rows: seq<Row>, idVars: seq<string>, valueVars: seq<string>,
                              varName: string, valueName: string, m: Row)
    requires valueName !in idVars && varName != valueName
    ensures (m in MeltRows(columns, rows, idVars, valueVars) && Present(idVars + [varName, valueName], m, [valueName])) <==>
      exists row, v :: row in rows && v in valueVars && Get(columns, row, v).Some? && m == MeltCell(columns, row, idVars, v)
  {
    var outColumns := idVars + [varName, valueName];
    var melted := MeltRows(columns, rows, idVars, valueVars);
    MeltRowsMembership(columns, rows, idVars, valueVars, m);
    PresentOne(outColumns, m, valueName);
    if m in melted && Present(outColumns, m, [valueName]) {
      var row, v :| row in rows && v in valueVars && m == MeltCell(columns, row, idVars, v);
      MeltedValue(columns, row, idVars, v, varName, valueName);
    }
    if exists row, v :: row in rows && v in valueVars && Get(columns, row, v).Some? && m == MeltCell(columns, row, idVars, v) {
      var row, v :| row in rows && v in valueVars && Get(columns, row, v).Some? && m == MeltCell(columns, row, idVars, v);
      MeltedValue(columns, row, idVars, v, varName, valueName);
      assert m in melted;
    }
  }

}
