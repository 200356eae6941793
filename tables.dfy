/** Dataframes as the energy dashboard uses them: a header of column names
    and rows of nullable cells. A missing cell (pandas NaN / None) is `None`.
    Looking up a column that does not exist is the error `MissingColumn`
    (pandas raises `KeyError`, or `UndefinedVariableError` inside `query`). */
module Tables {
  import opened Sequences

  datatype Option<+T> = None | Some(value: T)

  datatype Value = Text(text: string) | Number(num: real)

  type Cell = Option<Value>

  type Row = seq<Cell>

  datatype Table = Table(columns: seq<string>, rows: seq<Row>)

  datatype Error = MissingColumn(column: string)

  datatype Result<+T> = Ok(value: T) | Err(error: Error) {
    predicate IsFailure() {
      Err?
    }

    function PropagateFailure<U>(): Result<U>
      requires Err?
    {
      Err(error)
    }

    function Extract(): T
      requires Ok?
    {
      value
    }
  }

  /** Every row has one cell per column. */
  predicate WellFormed(t: Table) {
    forall row | row in t.rows :: |row| == |t.columns|
  }

  /** Position of the first column called `name` (pandas resolves a label to
      its column; this model takes the first one if a label repeats). */
  function IndexOf(names: seq<string>, name: string): (r: Option<nat>)
    ensures r.Some? ==> r.value < |names| && names[r.value] == name
    ensures r.Some? ==> forall j :: 0 <= j < r.value ==> names[j] != name
    ensures r.None? <==> name !in names
  {
    if |names| == 0 then None
    else if names[0] == name then Some(0)
    else match IndexOf(names[1..], name)
      case None => None
      case Some(i) => Some(i + 1)
  }

  lemma IndexOfInPrefix(a: seq<string>, b: seq<string>, name: string)
    requires name in a
    ensures IndexOf(a + b, name) == IndexOf(a, name)
  {
    var i := IndexOf(a, name).value;
    assert (a + b)[i] == name;
  }

  lemma {:induction false} IndexOfInSuffix(a: seq<string>, b: seq<string>, name: string)
    requires name !in a && name in b
    ensures IndexOf(a + b, name) == Some(|a| + IndexOf(b, name).value)
  {
    if |a| == 0 {
      assert a + b == b;
    } else {
      assert (a + b)[0] == a[0];
      assert (a + b)[1..] == a[1..] + b;
      IndexOfInSuffix(a[1..], b, name);
    }
  }

  /** The cell of `row` under column `name`; `None` when there is no such column. */
  function Get(columns: seq<string>, row: Row, name: string): Cell {
    match IndexOf(columns, name)
    case Some(p) => if p < |row| then row[p] else None
    case None => None
  }

  /** The cells of `row` under `names`, in that order. */
  function Cells(columns: seq<string>, row: Row, names: seq<string>): (r: Row)
    ensures |r| == |names|
  {
    seq(|names|, k requires 0 <= k < |names| => Get(columns, row, names[k]))
  }

  lemma GetInPrefix(a: seq<string>, b: seq<string>, x: Row, y: Row, name: string)
    requires name in a && |x| == |a|
    ensures Get(a + b, x + y, name) == Get(a, x, name)
  {
    IndexOfInPrefix(a, b, name);
  }

  lemma CellsInPrefix(a: seq<string>, b: seq<string>, x: Row, y: Row, names: seq<string>)
    requires forall n | n in names :: n in a
    requires |x| == |a|
    ensures Cells(a + b, x + y, names) == Cells(a, x, names)
  {
    forall k | 0 <= k < |names|
      ensures Get(a + b, x + y, names[k]) == Get(a, x, names[k])
    {
      GetInPrefix(a, b, x, y, names[k]);
    }
  }

  /** The number under column `name`, if that cell holds a number. */
  function NumberAt(columns: seq<string>, row: Row, name: string): Option<real> {
    match Get(columns, row, name)
    case Some(Number(x)) => Some(x)
    case _ => None
  }

  /** Positions of the columns `wanted` (first occurrence of each), or the
      first of them that is missing. */
  function IndicesOf(names: seq<string>, wanted: seq<string>): (r: Result<seq<nat>>)
    ensures r.Ok? <==> forall w | w in wanted :: w in names
    ensures r.Ok? ==> |r.value| == |wanted|
    ensures r.Ok? ==> forall k :: 0 <= k < |wanted| ==> Some(r.value[k]) == IndexOf(names, wanted[k])
    ensures r.Err? ==> r.error.column in wanted && r.error.column !in names
  {
    if |wanted| == 0 then Ok([])
    else match IndexOf(names, wanted[0])
      case None => Err(MissingColumn(wanted[0]))
      case Some(i) =>
        match IndicesOf(names, wanted[1..])
        case Err(e) => Err(e)
        case Ok(rest) => Ok([i] + rest)
  }

  /** The first column of `wanted` that `names` lacks, as an error; or `Ok`. */
  function Require(names: seq<string>, wanted: seq<string>): (r: Result<()>)
    ensures r.Ok? <==> forall w | w in wanted :: w in names
    ensures r.Err? ==> r.error.column in wanted && r.error.column !in names
  {
    match IndicesOf(names, wanted)
    case Ok(_) => Ok(())
    case Err(e) => Err(e)
  }

  /** `t[wanted]`: the listed columns, in the listed order. */
  function Select(t: Table, wanted: seq<string>): (r: Result<Table>)
    requires WellFormed(t)
    ensures r.Ok? <==> forall w | w in wanted :: w in t.columns
    ensures r.Err? ==> r.error.column in wanted && r.error.column !in t.columns
    ensures r.Ok? ==> WellFormed(r.value) && r.value.columns == wanted && |r.value.rows| == |t.rows|
    ensures r.Ok? ==> r.value.rows == Map(t.rows, (row: Row) => Cells(t.columns, row, wanted))
  {
    var _ :- Require(t.columns, wanted);
    Ok(Table(wanted, Map(t.rows, (row: Row) => Cells(t.columns, row, wanted))))
  }

  /** Reading a selected column gives the cell of the first column of that name. */
  lemma GetOfCells(columns: seq<string>, row: Row, names: seq<string>, name: string)
    requires name in names
    ensures Get(names, Cells(columns, row, names), name) == Get(columns, row, name)
  {
    var k := IndexOf(names, name).value;
    assert Cells(columns, row, names)[k] == Get(columns, row, names[k]);
  }

  lemma CellsOfCells(columns: seq<string>, row: Row, names: seq<string>, sub: seq<string>)
    requires forall n | n in sub :: n in names
    ensures Cells(names, Cells(columns, row, names), sub) == Cells(columns, row, sub)
  {
    forall k | 0 <= k < |sub|
      ensures Get(names, Cells(columns, row, names), sub[k]) == Get(columns, row, sub[k])
    {
      GetOfCells(columns, row, names, sub[k]);
    }
  }

  /** No cell of `row` under the columns `names` is missing. */
  predicate Present(columns: seq<string>, row: Row, names: seq<string>) {
    forall n | n in names :: Get(columns, row, n).Some?
  }

  /** With a single name, presence is that one cell being there. */
  lemma PresentOne(columns: seq<string>, row: Row, name: string)
    ensures Present(columns, row, [name]) <==> Get(columns, row, name).Some?
  {
    assert name in [name];
  }

  /** `t.dropna(subset=names)`: drop the rows with a missing cell under `names`. */
  function DropNull(t: Table, names: seq<string>): (r: Result<Table>)
    requires WellFormed(t)
    ensures r.Ok? <==> forall n | n in names :: n in t.columns
    ensures r.Err? ==> r.error.column in names && r.error.column !in t.columns
    ensures r.Ok? ==> r.value == Table(t.columns, Filter(t.rows, (row: Row) => Present(t.columns, row, names)))
    ensures r.Ok? ==> WellFormed(r.value)
  {
    var _ :- Require(t.columns, names);
    Ok(Table(t.columns, Filter(t.rows, (row: Row) => Present(t.columns, row, names))))
  }

  /** No cell of `row` is missing. */
  predicate Complete(row: Row) {
    forall k :: 0 <= k < |row| ==> row[k].Some?
  }

  lemma CompleteCells(columns: seq<string>, row: Row, names: seq<string>)
    ensures Complete(Cells(columns, row, names)) == Present(columns, row, names)
  {
    var c := Cells(columns, row, names);
    if Present(columns, row, names) {
      forall k | 0 <= k < |c| ensures c[k].Some? {
        assert names[k] in names;
      }
    }
    if Complete(c) {
      forall n | n in names ensures Get(columns, row, n).Some? {
        var k :| 0 <= k < |names| && names[k] == n;
        assert c[k] == Get(columns, row, n);
      }
    }
  }


  /** `t.dropna()`: drop every row with any missing cell. */
  function DropNullAll(t: Table): (r: Table)
    requires WellFormed(t)
    ensures WellFormed(r) && r.columns == t.columns
    ensures r.rows == Filter(t.rows, Complete)
    ensures forall row :: row in r.rows <==> row in t.rows && Complete(row)
    ensures IsSubsequence(r.rows, t.rows)
  {
    Table(t.columns, Filter(t.rows, Complete))
  }

  /** `df.rename(columns=mapping)`: a listed name is replaced, any other name is
      kept, and listed names that do not occur are ignored. */
  function Renamed(names: seq<string>, mapping: map<string, string>): (r: seq<string>)
    ensures |r| == |names|
    ensures forall i :: 0 <= i < |names| && names[i] in mapping ==> r[i] == mapping[names[i]]
    ensures forall i :: 0 <= i < |names| && names[i] !in mapping ==> r[i] == names[i]
  {
    if |names| == 0 then []
    else [if names[0] in mapping then mapping[names[0]] else names[0]] + Renamed(names[1..], mapping)
  }

  /** Entries of `mapping` whose source name is absent from the header make no
      difference to the renamed header. */
  lemma {:induction false} RenamedIgnoresAbsent(names: seq<string>, mapping: map<string, string>)
    ensures Renamed(names, mapping) == Renamed(names, map n | n in mapping && n in names :: mapping[n])
  {
    var used := map n | n in mapping && n in names :: mapping[n];
    var a, b := Renamed(names, mapping), Renamed(names, used);
    forall i | 0 <= i < |names|
      ensures a[i] == b[i]
    {
      assert names[i] in names;
    }
  }

  /** `df[name] = values` and `df.assign(name=values)`: an existing column is
      overwritten, otherwise the column is appended at the right. */
  function WithColumn(t: Table, name: string, values: seq<Cell>): (r: Table)
    requires WellFormed(t) && |values| == |t.rows|
    ensures WellFormed(r) && |r.rows| == |t.rows|
    ensures name in t.columns ==> r.columns == t.columns
    ensures name !in t.columns ==> r.columns == t.columns + [name]
    ensures name !in t.columns ==> forall i :: 0 <= i < |t.rows| ==> r.rows[i] == t.rows[i] + [values[i]]
    ensures forall i :: 0 <= i < |t.rows| ==> Get(r.columns, r.rows[i], name) == values[i]
    ensures forall i, c :: 0 <= i < |t.rows| && c != name && c in t.columns ==>
      Get(r.columns, r.rows[i], c) == Get(t.columns, t.rows[i], c)
  {
    match IndexOf(t.columns, name)
    case Some(p) => OverwriteColumn(t, p, values)
    case None => AppendColumn(t, name, values)
  }

  function OverwriteColumn(t: Table, p: nat, values: seq<Cell>): (r: Table)
    requires WellFormed(t) && |values| == |t.rows| && p < |t.columns|
    requires IndexOf(t.columns, t.columns[p]) == Some(p)
    ensures WellFormed(r) && |r.rows| == |t.rows| && r.columns == t.columns
    ensures forall i :: 0 <= i < |t.rows| ==> Get(r.columns, r.rows[i], t.columns[p]) == values[i]
    ensures forall i, c :: 0 <= i < |t.rows| && c != t.columns[p] ==>
      Get(r.columns, r.rows[i], c) == Get(t.columns, t.rows[i], c)
  {
    var rows := seq(|t.rows|, i requires 0 <= i < |t.rows| => t.rows[i][p := values[i]]);
    assert forall i :: 0 <= i < |t.rows| ==> t.rows[i] in t.rows;
    Table(t.columns, rows)
  }

  function AppendColumn(t: Table, name: string, values: seq<Cell>): (r: Table)
    requires WellFormed(t) && |values| == |t.rows| && name !in t.columns
    ensures WellFormed(r) && |r.rows| == |t.rows| && r.columns == t.columns + [name]
    ensures forall i :: 0 <= i < |t.rows| ==> r.rows[i] == t.rows[i] + [values[i]]
    ensures forall i :: 0 <= i < |t.rows| ==> Get(r.columns, r.rows[i], name) == values[i]
    ensures forall i, c :: 0 <= i < |t.rows| && c in t.columns ==>
      Get(r.columns, r.rows[i], c) == Get(t.columns, t.rows[i], c)
  {
    var rows := seq(|t.rows|, i requires 0 <= i < |t.rows| => t.rows[i] + [values[i]]);
    assert forall i :: 0 <= i < |t.rows| ==> t.rows[i] in t.rows;
    var r := Table(t.columns + [name], rows);
    forall i, c | 0 <= i < |t.rows| && c in t.columns
      ensures Get(r.columns, r.rows[i], c) == Get(t.columns, t.rows[i], c)
    {
      GetInPrefix(t.columns, [name], t.rows[i], [values[i]], c);
    }
    forall i | 0 <= i < |t.rows|
      ensures Get(r.columns, r.rows[i], name) == values[i]
    {
      IndexOfInSuffix(t.columns, [name], name);
    }
    r
  }
}
