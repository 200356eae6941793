/** GDP per capita (app_challenge3.py:62-91): the World Bank table when it can
    be fetched and shaped, otherwise `gdp / population` from the energy table. */
module Gdp {
  import opened Sequences
  import opened Tables

  const Indicator: string := "NY.GDP.PCAP.PP.KD"

  const WbRenames: map<string, string> := map[
    "economy" := "iso_code",
    "time" := "year",
    Indicator := "gdp_percap"
  ]

  /** The schema both paths return (lines 81 and 89). */
  const GdpColumns: seq<string> := ["iso_code", "year", "gdp_percap"]

  const FallbackColumns: seq<string> := ["iso_code", "year", "gdp", "population"]

  /** `gdp / population` on cells. A quotient that pandas would make infinite
      or NaN (zero population) is `None`, as is a non-numeric operand. */
  function Ratio(gdp: Cell, population: Cell): (r: Cell)
    ensures r.Some? <==> gdp.Some? && gdp.value.Number? && population.Some? && population.value.Number? && population.value.num != 0.0
    ensures r.Some? ==> r.value == Number(gdp.value.num / population.value.num)
  {
    match (gdp, population)
    case (Some(Number(g)), Some(Number(p))) => if p != 0.0 then Some(Number(g / p)) else None
    case _ => None
  }

  /** Lines 67-81 after the fetch: rename, drop missing `gdp_percap`, select. */
  function PrimaryGdp(wb: Table): (r: Result<Table>)
    requires WellFormed(wb)
    ensures r.Ok? <==> forall n | n in GdpColumns :: n in Renamed(wb.columns, WbRenames)
    ensures r.Ok? ==> WellFormed(r.value) && r.value.columns == GdpColumns
    ensures r.Ok? ==> r.value.rows == Map(
      Filter(wb.rows, (row: Row) => Present(Renamed(wb.columns, WbRenames), row, ["gdp_percap"])),
      (row: Row) => Cells(Renamed(wb.columns, WbRenames), row, GdpColumns))
    ensures r.Ok? ==> forall row: Row | row in r.value.rows :: row[2].Some?
  {
    var renamed := Table(Renamed(wb.columns, WbRenames), wb.rows);
    match DropNull(renamed, ["gdp_percap"])
    case Err(e) =>
      assert "gdp_percap" in GdpColumns;
      Err(e)
    case Ok(present) =>
      var r := Select(present, GdpColumns);
      if r.Ok? then
        GdpPresentInSelection(renamed.columns, present.rows, r.value.rows);
        r
      else
        r
  }

  lemma GdpPresentInSelection(names: seq<string>, kept: seq<Row>, out: seq<Row>)
    requires forall row | row in kept :: Present(names, row, ["gdp_percap"])
    requires out == Map(kept, (row: Row) => Cells(names, row, GdpColumns))
    ensures forall row: Row | row in out :: row[2].Some?
  {
    forall row: Row | row in out ensures row[2].Some? {
      var i :| 0 <= i < |out| && out[i] == row;
      assert kept[i] in kept;
      assert "gdp_percap" in ["gdp_percap"];
    }
  }

  /** One fallback row: its key and `gdp / population`. */
  function FallbackRow(columns: seq<string>, row: Row): Row {
    [Get(columns, row, "iso_code"), Get(columns, row, "year"),
     Ratio(Get(columns, row, "gdp"), Get(columns, row, "population"))]
  }

  /** Lines 87-89: rows with all four of `iso_code`, `year`, `gdp`,
      `population` present, each giving `gdp / population`. */
  function FallbackGdp(energy: Table): (r: Result<Table>)
    requires WellFormed(energy)
    ensures r.Ok? <==> forall n | n in FallbackColumns :: n in energy.columns
    ensures r.Err? ==> r.error.column in FallbackColumns
    ensures r.Ok? ==> WellFormed(r.value) && r.value.columns == GdpColumns
    ensures r.Ok? ==> r.value.rows == Map(
      Filter(energy.rows, (row: Row) => Present(energy.columns, row, FallbackColumns)),
      (row: Row) => FallbackRow(energy.columns, row))
  {
    var fb :- Select(energy, FallbackColumns);
    var complete := DropNullAll(fb);
    var ratios := Map(complete.rows, (row: Row) => Ratio(Get(FallbackColumns, row, "gdp"), Get(FallbackColumns, row, "population")));
    var withRatio := WithColumn(complete, "gdp_percap", ratios);
    var r := Select(withRatio, GdpColumns);
    FallbackRowsAgree(energy, fb, complete, ratios, withRatio, r.value);
    r
  }

  /** A complete row in `FallbackColumns` order, reduced to the output schema. */
  function RatioRow(c: Row): Row {
    [Get(FallbackColumns, c, "iso_code"), Get(FallbackColumns, c, "year"),
     Ratio(Get(FallbackColumns, c, "gdp"), Get(FallbackColumns, c, "population"))]
  }

  lemma FallbackRowsAgree(energy: Table, fb: Table, complete: Table, ratios: seq<Cell>, withRatio: Table, out: Table)
    requires WellFormed(energy)
    requires Select(energy, FallbackColumns) == Ok(fb)
    requires complete == DropNullAll(fb)
    requires ratios == Map(complete.rows, (row: Row) => Ratio(Get(FallbackColumns, row, "gdp"), Get(FallbackColumns, row, "population")))
    requires withRatio == WithColumn(complete, "gdp_percap", ratios)
    requires Select(withRatio, GdpColumns) == Ok(out)
    ensures out.rows == Map(
      Filter(energy.rows, (row: Row) => Present(energy.columns, row, FallbackColumns)),
      (row: Row) => FallbackRow(energy.columns, row))
  {
    CompleteRowsAreKept(energy, fb, complete);
    SelectedRatioRows(complete, ratios, withRatio, out);
    ComposeRatioRows(energy.columns,
      Filter(energy.rows, (row: Row) => Present(energy.columns, row, FallbackColumns)),
      complete.rows, out.rows);
  }

  lemma SelectedRatioRows(complete: Table, ratios: seq<Cell>, withRatio: Table, out: Table)
    requires WellFormed(complete) && complete.columns == FallbackColumns
    requires ratios == Map(complete.rows, (row: Row) => Ratio(Get(FallbackColumns, row, "gdp"), Get(FallbackColumns, row, "population")))
    requires withRatio == WithColumn(complete, "gdp_percap", ratios)
    requires Select(withRatio, GdpColumns) == Ok(out)
    ensures out.rows == Map(complete.rows, RatioRow)
  {
    AppendedRatios(complete, ratios, withRatio);
    SelectedRatios(complete.rows, withRatio, out.rows);
  }

  lemma AppendedRatios(complete: Table, ratios: seq<Cell>, withRatio: Table)
    requires WellFormed(complete) && complete.columns == FallbackColumns
    requires ratios == Map(complete.rows, (row: Row) => Ratio(Get(FallbackColumns, row, "gdp"), Get(FallbackColumns, row, "population")))
    requires withRatio == WithColumn(complete, "gdp_percap", ratios)
    ensures withRatio.columns == FallbackColumns + ["gdp_percap"] && |withRatio.rows| == |complete.rows|
    ensures forall i :: 0 <= i < |complete.rows| ==>
      |complete.rows[i]| == |FallbackColumns| && withRatio.rows[i] == complete.rows[i] + [Ratio(Get(FallbackColumns, complete.rows[i], "gdp"), Get(FallbackColumns, complete.rows[i], "population"))]
  {
    assert "gdp_percap" !in FallbackColumns;
    assert forall i :: 0 <= i < |complete.rows| ==> complete.rows[i] in complete.rows;
  }

  lemma SelectedRatios(complete: seq<Row>, withRatio: Table, out: seq<Row>)
    requires withRatio.columns == FallbackColumns + ["gdp_percap"] && |withRatio.rows| == |complete|
    requires forall i :: 0 <= i < |complete| ==>
      |complete[i]| == |FallbackColumns| && withRatio.rows[i] == complete[i] + [Ratio(Get(FallbackColumns, complete[i], "gdp"), Get(FallbackColumns, complete[i], "population"))]
    requires out == Map(withRatio.rows, (row: Row) => Cells(withRatio.columns, row, GdpColumns))
    ensures out == Map(complete, RatioRow)
  {
    forall i | 0 <= i < |complete|
      ensures out[i] == RatioRow(complete[i])
    {
      SelectedRatioRow(complete[i], withRatio.rows[i], withRatio.columns, out[i]);
    }
  }

  lemma SelectedRatioRow(c: Row, w: Row, wColumns: seq<string>, o: Row)
    requires |c| == |FallbackColumns| && wColumns == FallbackColumns + ["gdp_percap"]
    requires w == c + [Ratio(Get(FallbackColumns, c, "gdp"), Get(FallbackColumns, c, "population"))]
    requires o == Cells(wColumns, w, GdpColumns)
    ensures o == RatioRow(c)
  {
    var ratio := [w[|c|]];
    GetInPrefix(FallbackColumns, ["gdp_percap"], c, ratio, "iso_code");
    GetInPrefix(FallbackColumns, ["gdp_percap"], c, ratio, "year");
    IndexOfInSuffix(FallbackColumns, ["gdp_percap"], "gdp_percap");
  }

  lemma ComposeRatioRows(columns: seq<string>, kept: seq<Row>, complete: seq<Row>, out: seq<Row>)
    requires complete == Map(kept, (row: Row) => Cells(columns, row, FallbackColumns))
    requires out == Map(complete, RatioRow)
    ensures out == Map(kept, (row: Row) => FallbackRow(columns, row))
  {
    forall i | 0 <= i < |kept|
      ensures out[i] == FallbackRow(columns, kept[i])
    {
      RatioRowOfCells(columns, kept[i]);
    }
  }

  lemma RatioRowOfCells(columns: seq<string>, row: Row)
    ensures RatioRow(Cells(columns, row, FallbackColumns)) == FallbackRow(columns, row)
  {
    GetOfCells(columns, row, FallbackColumns, "iso_code");
    GetOfCells(columns, row, FallbackColumns, "year");
    GetOfCells(columns, row, FallbackColumns, "gdp");
    GetOfCells(columns, row, FallbackColumns, "population");
  }

  lemma CompleteRowsAreKept(energy: Table, fb: Table, complete: Table)
    requires WellFormed(energy)
    requires Select(energy, FallbackColumns) == Ok(fb)
    requires complete == DropNullAll(fb)
    ensures complete.rows == Map(
      Filter(energy.rows, (row: Row) => Present(energy.columns, row, FallbackColumns)),
      (row: Row) => Cells(energy.columns, row, FallbackColumns))
  {
    var f := (row: Row) => Cells(energy.columns, row, FallbackColumns);
    var q := (row: Row) => Present(energy.columns, row, FallbackColumns);
    forall x | x in energy.rows
      ensures q(x) == Complete(f(x))
    {
      CompleteCells(energy.columns, x, FallbackColumns);
    }
    FilterMap(energy.rows, f, Complete, q);
  }

  /** Lines 65-91: the World Bank path when the fetch succeeds (`Some`) and its
      shaping raises nothing; the fallback on any failure inside the `try`. */
  function FetchGdpOrFallback(worldBank: Option<Table>, energy: Table): (r: Result<Table>)
    requires worldBank.Some? ==> WellFormed(worldBank.value)
    requires WellFormed(energy)
    ensures r.Ok? ==> WellFormed(r.value) && r.value.columns == GdpColumns
    ensures worldBank.Some? && PrimaryGdp(worldBank.value).Ok? ==> r == PrimaryGdp(worldBank.value)
    ensures !(worldBank.Some? && PrimaryGdp(worldBank.value).Ok?) ==> r == FallbackGdp(energy)
  {
    match worldBank
    case Some(wb) =>
      var primary := PrimaryGdp(wb);
      if primary.Ok? then primary else FallbackGdp(energy)
    case None => FallbackGdp(energy)
  }
}
