/** `load_data` (app_challenge3.py:21-135): harmonise the three sources,
    join them on `(iso_code, year)`, add the continent and build the long
    table of the electricity mix. */
module Load {
  import opened Sequences
  import opened Tables
  import opened Frames
  import opened Harmonize
  import opened Gdp
  import opened Merge
  import opened Reshape

  const Keys: seq<string> := ["iso_code", "year"]

  /** The energy columns kept for the first merge (lines 95-99). */
  const EnergyColumns: seq<string> := [
    "iso_code", "country", "year", "electricity_generation",
    "biofuel", "coal", "gas", "hydro", "nuclear", "oil",
    "other_renewable", "solar", "wind"
  ]

  const Co2Columns: seq<string> := ["iso_code", "year", "co2_per_capita"]

  /** The id columns of the melt (lines 121-124). */
  const IdVars: seq<string> := [
    "iso_code", "country", "year", "gdp_percap",
    "co2_per_capita", "continent", "electricity_generation"
  ]

  /** The nine electricity sources melted into rows (lines 125-129). */
  const Sources: seq<string> := [
    "biofuel", "coal", "gas", "hydro", "nuclear", "oil", "other_renewable", "solar", "wind"
  ]

  /** Facts about the column lists above, proved once. */
  lemma ColumnFacts()
    ensures "value" !in IdVars && "source" !in IdVars
    ensures "iso_code" in EnergyColumns && "year" in EnergyColumns
    ensures "iso_code" in CombinedColumns && "year" in CombinedColumns
    ensures "country" in CombinedColumns && "continent" !in CombinedColumns
  {
  }

  /** The header after both merges. */
  const CombinedColumns: seq<string> := EnergyColumns + ["gdp_percap", "co2_per_capita"]

  /** Membership of the key columns, and of one more, spelt out. */
  lemma KeysIn(columns: seq<string>, value: string)
    ensures (forall k | k in Keys :: k in columns) <==> "iso_code" in columns && "year" in columns
    ensures (forall c | c in Keys + [value] :: c in columns) <==> "iso_code" in columns && "year" in columns && value in columns
  {
    assert Keys + [value] == ["iso_code", "year", value];
  }

  /** One of the two merges: `right[keys + [value]]` joined onto `left`. */
  function JoinOn(left: Table, right: Table, value: string): (r: Result<Table>)
    requires WellFormed(left) && WellFormed(right) && value != "iso_code" && value != "year"
    ensures r.Ok? <==> "iso_code" in left.columns && "year" in left.columns &&
                       "iso_code" in right.columns && "year" in right.columns && value in right.columns
    ensures r.Err? ==> r.error.column in Keys + [value]
    ensures r.Ok? ==> WellFormed(r.value) && r.value.columns == left.columns + [value]
    ensures r.Ok? ==> KeySet(r.value, Keys) == KeySet(left, Keys) * KeySet(right, Keys)
    ensures r.Ok? ==> forall row | row in r.value.rows :: |left.columns| <= |row| && row[..|left.columns|] in left.rows
  {
    KeysIn(left.columns, value);
    KeysIn(right.columns, value);
    var s :- Select(right, Keys + [value]);
    var r := InnerMerge(left, s, Keys);
    assert Keys + [value] == ["iso_code", "year", value];
    ExtraAfterKeys("iso_code", "year", value);
    if r.Ok? then
      SelectKeySet(right, Keys + [value], Keys, s);
      MergeKeySet(left, s, Keys, r.value);
      MergedLeftRows(left, s, Keys, r.value);
      r
    else
      r
  }

  /** Lines 94-110: the energy columns joined with GDP, then with CO2. */
  function CombineSources(energy: Table, gdp: Table, co2: Table): (r: Result<Table>)
    requires WellFormed(energy) && WellFormed(gdp) && WellFormed(co2)
    ensures r.Ok? <==> (forall c | c in EnergyColumns :: c in energy.columns) &&
                       "iso_code" in gdp.columns && "year" in gdp.columns && "gdp_percap" in gdp.columns &&
                       "iso_code" in co2.columns && "year" in co2.columns && "co2_per_capita" in co2.columns
    ensures r.Ok? ==> WellFormed(r.value) && r.value.columns == CombinedColumns
    ensures r.Ok? ==> KeySet(r.value, Keys) == KeySet(energy, Keys) * KeySet(gdp, Keys) * KeySet(co2, Keys)
    ensures r.Ok? ==> forall row | row in r.value.rows :: exists source ::
      source in energy.rows && |EnergyColumns| <= |row| && row[..|EnergyColumns|] == Cells(energy.columns, source, EnergyColumns)
  {
    var e :- Select(energy, EnergyColumns);
    ColumnFacts();
    SelectKeySet(energy, EnergyColumns, Keys, e);
    SelectedFromEnergy(energy, e);
    var r := JoinBoth(e, gdp, co2);
    if r.Ok? then
      RowsFromEnergy(energy, e, r.value);
      r
    else
      r
  }

  /** The two merges on the selected energy columns. */
  function JoinBoth(e: Table, gdp: Table, co2: Table): (r: Result<Table>)
    requires WellFormed(e) && WellFormed(gdp) && WellFormed(co2) && e.columns == EnergyColumns
    ensures r.Ok? <==> "iso_code" in gdp.columns && "year" in gdp.columns && "gdp_percap" in gdp.columns &&
                       "iso_code" in co2.columns && "year" in co2.columns && "co2_per_capita" in co2.columns
    ensures r.Ok? ==> WellFormed(r.value) && r.value.columns == CombinedColumns
    ensures r.Ok? ==> KeySet(r.value, Keys) == KeySet(e, Keys) * KeySet(gdp, Keys) * KeySet(co2, Keys)
    ensures r.Ok? ==> forall row | row in r.value.rows :: |EnergyColumns| <= |row| && row[..|EnergyColumns|] in e.rows
  {
    ColumnFacts();
    var merged :- JoinOn(e, gdp, "gdp_percap");
    var r := JoinOn(merged, co2, "co2_per_capita");
    AppendPair(EnergyColumns, "gdp_percap", "co2_per_capita");
    if r.Ok? then
      PrefixOfPrefix(e, merged, r.value);
      r
    else
      r
  }

  lemma AppendPair(a: seq<string>, x: string, y: string)
    ensures a + [x] + [y] == a + [x, y]
  {
  }

  /** A row whose prefix is a row of `merged`, whose own prefix is a row of
      `e`, has a prefix that is a row of `e`. */
  lemma PrefixOfPrefix(e: Table, merged: Table, out: Table)
    requires |e.columns| <= |merged.columns|
    requires forall row | row in merged.rows :: |e.columns| <= |row| && row[..|e.columns|] in e.rows
    requires forall row | row in out.rows :: |merged.columns| <= |row| && row[..|merged.columns|] in merged.rows
    ensures forall row | row in out.rows :: |e.columns| <= |row| && row[..|e.columns|] in e.rows
  {
    forall row | row in out.rows
      ensures |e.columns| <= |row| && row[..|e.columns|] in e.rows
    {
      var m := row[..|merged.columns|];
      assert row[..|e.columns|] == m[..|e.columns|];
    }
  }

  /** Each selected row is the selection of an energy row. */
  lemma SelectedFromEnergy(energy: Table, e: Table)
    requires WellFormed(energy) && Select(energy, EnergyColumns) == Ok(e)
    ensures forall row | row in e.rows :: exists source :: source in energy.rows && row == Cells(energy.columns, source, EnergyColumns)
  {
    forall row | row in e.rows
      ensures exists source :: source in energy.rows && row == Cells(energy.columns, source, EnergyColumns)
    {
      var i :| 0 <= i < |e.rows| && e.rows[i] == row;
      assert energy.rows[i] in energy.rows;
    }
  }

  lemma RowsFromEnergy(energy: Table, e: Table, out: Table)
    requires forall row | row in e.rows :: exists source :: source in energy.rows && row == Cells(energy.columns, source, EnergyColumns)
    requires forall row | row in out.rows :: |EnergyColumns| <= |row| && row[..|EnergyColumns|] in e.rows
    ensures forall row | row in out.rows :: exists source ::
      source in energy.rows && |EnergyColumns| <= |row| && row[..|EnergyColumns|] == Cells(energy.columns, source, EnergyColumns)
  {
    forall row | row in out.rows
      ensures exists source ::
        source in energy.rows && |EnergyColumns| <= |row| && row[..|EnergyColumns|] == Cells(energy.columns, source, EnergyColumns)
    {
      var p := row[..|EnergyColumns|];
      assert p in e.rows;
      var source :| source in energy.rows && p == Cells(energy.columns, source, EnergyColumns);
    }
  }

  /** Lines 118-133: the melt of the nine sources, then `dropna(subset=["value"])`. */
  function LongEnergy(t: Table): (r: Result<Table>)
    requires WellFormed(t)
    ensures r.Ok? <==> (forall c | c in IdVars :: c in t.columns) && (forall c | c in Sources :: c in t.columns)
    ensures r.Ok? ==> WellFormed(r.value) && r.value.columns == IdVars + ["source", "value"]
    ensures r.Ok? ==> |r.value.rows| == NonNullCells(t.columns, t.rows, Sources)
    ensures r.Ok? ==> forall m :: m in r.value.rows <==>
      m in MeltRows(t.columns, t.rows, IdVars, Sources) && Present(IdVars + ["source", "value"], m, ["value"])
  {
    var melted :- Melt(t, IdVars, Sources, "source", "value");
    ColumnFacts();
    MeltDropCount(t.columns, t.rows, IdVars, Sources, "source", "value");
    DropNull(melted, ["value"])
  }

  /** A long row is an input row melted for one of the sources whose cell is
      present, its id columns copied; every such pair gives a long row. */
  lemma LongEnergyRows(t: Table, long: Table, m: Row)
    requires WellFormed(t) && LongEnergy(t) == Ok(long)
    ensures m in long.rows <==>
      exists row, v :: row in t.rows && v in Sources && Get(t.columns, row, v).Some? && m == MeltCell(t.columns, row, IdVars, v)
    ensures m in long.rows ==> exists row :: row in t.rows && Cells(long.columns, m, IdVars) == Cells(t.columns, row, IdVars)
  {
    ColumnFacts();
    MeltPresentMembership(t.columns, t.rows, IdVars, Sources, "source", "value", m);
    if m in long.rows {
      var row, v :| row in t.rows && v in Sources && Get(t.columns, row, v).Some? && m == MeltCell(t.columns, row, IdVars, v);
      MeltedIds(t.columns, row, IdVars, v, "source", "value");
    }
  }

  /** The three harmonised sources of `load_data` (lines 23-91). */
  datatype Harmonised = Harmonised(co2: Table, energy: Table, gdp: Table)

  /** What harmonising guarantees: rectangular tables, the GDP schema and
      energy rows from 1990 on with an `iso_code`. */
  predicate HarmonisedValid(h: Harmonised) {
    WellFormed(h.co2) && WellFormed(h.energy) && WellFormed(h.gdp) &&
    h.gdp.columns == GdpColumns &&
    forall row | row in h.energy.rows :: EnergyKeep(h.energy.columns, row)
  }

  /** Lines 23-91: the CO2 table, the energy table and GDP per capita. */
  function HarmonizeAll(co2Raw: Table, energyRaw: Table, worldBank: Option<Table>,
                        cleanAvailable: bool, clean: string -> string): (r: Result<Harmonised>)
    requires WellFormed(co2Raw) && WellFormed(energyRaw)
    requires worldBank.Some? ==> WellFormed(worldBank.value)
    ensures r.Ok? ==> HarmonisedValid(r.value)
    ensures r.Ok? ==> forall row | row in r.value.co2.rows :: row in co2Raw.rows && YearFrom(r.value.co2.columns, row, YearCutoff)
    ensures r.Ok? ==> r.value.co2.rows == Filter(co2Raw.rows, (row: Row) => YearFrom(r.value.co2.columns, row, YearCutoff))
    ensures r.Ok? ==> forall row | row in r.value.energy.rows :: row in energyRaw.rows
    ensures r.Ok? ==> r.value.energy.rows == Filter(energyRaw.rows, (row: Row) => EnergyKeep(r.value.energy.columns, row))
    ensures HarmonizeCo2(co2Raw, cleanAvailable, clean).Err? ==> r.Err?
  {
    var co2 :- HarmonizeCo2(co2Raw, cleanAvailable, clean);
    var energy :- HarmonizeEnergy(energyRaw, cleanAvailable, clean);
    var gdp :- FetchGdpOrFallback(worldBank, energy);
    Ok(Harmonised(co2, energy, gdp))
  }

  /** Lines 93-133: the merges, the continent and the long table. */
  function Assemble(h: Harmonised, classify: string -> Option<string>): (r: Result<(Table, Table)>)
    requires HarmonisedValid(h)
    ensures r.Ok? ==> WellFormed(r.value.0) && WellFormed(r.value.1)
    ensures r.Ok? ==> forall row | row in r.value.0.rows ::
      YearFrom(r.value.0.columns, row, YearCutoff) && Get(r.value.0.columns, row, "iso_code").Some?
    ensures r.Ok? ==> LongEnergy(r.value.0) == Ok(r.value.1)
    ensures r.Ok? ==> r.value.1.columns == IdVars + ["source", "value"]
    ensures r.Ok? ==> |r.value.1.rows| == NonNullCells(r.value.0.columns, r.value.0.rows, Sources)
    ensures r.Ok? ==> KeySet(r.value.0, Keys) == KeySet(h.energy, Keys) * KeySet(h.gdp, Keys) * KeySet(h.co2, Keys)
    ensures r.Ok? ==> r.value.0.columns == CombinedColumns + ["continent"]
    ensures r.Ok? ==> forall i :: 0 <= i < |r.value.0.rows| ==>
      Get(r.value.0.columns, r.value.0.rows[i], "continent") ==
      ContinentOf(classify, Get(r.value.0.columns, r.value.0.rows[i], "country"))
  {
    var combined :- CombineSources(h.energy, h.gdp, h.co2);
    var enriched :- Enrich(combined, classify);
    var long :- LongEnergy(enriched);
    EnrichKeepsKeys(combined, classify, enriched);
    EnrichKeySet(combined, classify, enriched);
    EnrichedRecent(h.energy, combined, enriched);
    EnrichedContinent(combined, classify, enriched);
    Ok((enriched, long))
  }

  /** The continent column leaves the key set as it was. */
  lemma EnrichKeySet(joined: Table, classify: string -> Option<string>, combined: Table)
    requires WellFormed(joined) && joined.columns == CombinedColumns
    requires Enrich(joined, classify) == Ok(combined)
    ensures KeySet(combined, Keys) == KeySet(joined, Keys)
  {
    EnrichKeepsKeys(joined, classify, combined);
    forall i | 0 <= i < |joined.rows|
      ensures Cells(combined.columns, combined.rows[i], Keys) == Cells(joined.columns, joined.rows[i], Keys)
    {
      KeyCells(combined.columns, combined.rows[i]);
      KeyCells(joined.columns, joined.rows[i]);
    }
    KeySetRowwise(combined, joined, Keys);
  }

  /** A key tuple is the `iso_code` cell followed by the `year` cell. */
  lemma KeyCells(columns: seq<string>, row: Row)
    ensures Cells(columns, row, Keys) == [Get(columns, row, "iso_code"), Get(columns, row, "year")]
  {
  }

  /** The enriched table is the combined one with `continent` appended, and
      each row's continent is its own country's. */
  lemma EnrichedContinent(joined: Table, classify: string -> Option<string>, combined: Table)
    requires WellFormed(joined) && joined.columns == CombinedColumns
    requires Enrich(joined, classify) == Ok(combined)
    ensures combined.columns == CombinedColumns + ["continent"]
    ensures forall i :: 0 <= i < |combined.rows| ==>
      Get(combined.columns, combined.rows[i], "continent") == ContinentOf(classify, Get(combined.columns, combined.rows[i], "country"))
  {
    ColumnFacts();
    EnrichKeeps(joined, classify, combined, "country");
  }

  /** The continent column leaves `year` and `iso_code` as they were. */
  lemma EnrichKeepsKeys(joined: Table, classify: string -> Option<string>, combined: Table)
    requires WellFormed(joined) && joined.columns == CombinedColumns
    requires Enrich(joined, classify) == Ok(combined)
    ensures |combined.rows| == |joined.rows|
    ensures forall i :: 0 <= i < |joined.rows| ==>
      Get(combined.columns, combined.rows[i], "year") == Get(joined.columns, joined.rows[i], "year") &&
      Get(combined.columns, combined.rows[i], "iso_code") == Get(joined.columns, joined.rows[i], "iso_code")
  {
    ColumnFacts();
    EnrichKeeps(joined, classify, combined, "year");
    EnrichKeeps(joined, classify, combined, "iso_code");
  }

  lemma EnrichKeeps(joined: Table, classify: string -> Option<string>, combined: Table, c: string)
    requires WellFormed(joined) && c in joined.columns && c != "continent"
    requires Enrich(joined, classify) == Ok(combined)
    ensures |combined.rows| == |joined.rows|
    ensures forall i :: 0 <= i < |joined.rows| ==> Get(combined.columns, combined.rows[i], c) == Get(joined.columns, joined.rows[i], c)
  {
  }

  /** `load_data` on values. The fetched tables are inputs; `worldBank` is
      `None` when the World Bank request fails. */
  function LoadPipeline(co2Raw: Table, energyRaw: Table, worldBank: Option<Table>,
                        cleanAvailable: bool, clean: string -> string,
                        classify: string -> Option<string>): (r: Result<(Table, Table)>)
    requires WellFormed(co2Raw) && WellFormed(energyRaw)
    requires worldBank.Some? ==> WellFormed(worldBank.value)
    ensures r.Ok? ==> WellFormed(r.value.0) && WellFormed(r.value.1)
    ensures r.Ok? ==> forall row | row in r.value.0.rows ::
      YearFrom(r.value.0.columns, row, YearCutoff) && Get(r.value.0.columns, row, "iso_code").Some?
    ensures r.Ok? ==> LongEnergy(r.value.0) == Ok(r.value.1)
    ensures r.Ok? ==> r.value.1.columns == IdVars + ["source", "value"]
    ensures r.Ok? ==> |r.value.1.rows| == NonNullCells(r.value.0.columns, r.value.0.rows, Sources)
    ensures HarmonizeCo2(co2Raw, cleanAvailable, clean).Err? ==> r.Err?
    ensures r.Ok? ==> HarmonizeAll(co2Raw, energyRaw, worldBank, cleanAvailable, clean).Ok?
    ensures r.Ok? ==> var h := HarmonizeAll(co2Raw, energyRaw, worldBank, cleanAvailable, clean).value;
      KeySet(r.value.0, Keys) == KeySet(h.energy, Keys) * KeySet(h.gdp, Keys) * KeySet(h.co2, Keys)
    ensures r.Ok? ==> r.value.0.columns == CombinedColumns + ["continent"]
    ensures r.Ok? ==> forall i :: 0 <= i < |r.value.0.rows| ==>
      Get(r.value.0.columns, r.value.0.rows[i], "continent") ==
      ContinentOf(classify, Get(r.value.0.columns, r.value.0.rows[i], "country"))
  {
    var h :- HarmonizeAll(co2Raw, energyRaw, worldBank, cleanAvailable, clean);
    Assemble(h, classify)
  }

  /** Lines 44-60 as written: the energy header is renamed in place. */
  method LoadEnergy(energyRaw: Table, cleanAvailable: bool, clean: string -> string) returns (energy: Result<Table>)
    requires WellFormed(energyRaw)
    ensures energy == HarmonizeEnergy(energyRaw, cleanAvailable, clean)
  {
    var cleaned := CleanedIfAvailable(energyRaw, cleanAvailable, clean);
    var frame := new Frame(cleaned);
    frame.Rename(EnergyRenames);
    energy := EnergyRows(frame.Snapshot());
  }

  /** Lines 23-91: the three sources, the energy one renamed in place. */
  method LoadSources(co2Raw: Table, energyRaw: Table, worldBank: Option<Table>,
                     cleanAvailable: bool, clean: string -> string) returns (result: Result<Harmonised>)
    requires WellFormed(co2Raw) && WellFormed(energyRaw)
    requires worldBank.Some? ==> WellFormed(worldBank.value)
    ensures result == HarmonizeAll(co2Raw, energyRaw, worldBank, cleanAvailable, clean)
  {
    var co2 := HarmonizeCo2(co2Raw, cleanAvailable, clean);
    if co2.Err? {
      return Err(co2.error);
    }
    var energy := LoadEnergy(energyRaw, cleanAvailable, clean);
    if energy.Err? {
      return Err(energy.error);
    }
    var gdp := FetchGdpOrFallback(worldBank, energy.value);
    if gdp.Err? {
      return Err(gdp.error);
    }
    return Ok(Harmonised(co2.value, energy.value, gdp.value));
  }

  /** Lines 93-133 as written: the continent column is assigned in place. */
  method BuildTables(h: Harmonised, classify: string -> Option<string>) returns (result: Result<(Table, Table)>)
    requires HarmonisedValid(h)
    ensures result == Assemble(h, classify)
  {
    var combined := CombineSources(h.energy, h.gdp, h.co2);
    if combined.Err? {
      return Err(combined.error);
    }
    var table := new Frame(combined.value);
    var continents := ContinentColumn(table.Snapshot(), classify);
    if continents.Err? {
      return Err(continents.error);
    }
    table.AssignColumn("continent", continents.value);
    var long := LongEnergy(table.Snapshot());
    if long.Err? {
      return Err(long.error);
    }
    return Ok((table.Snapshot(), long.value));
  }

  /** `load_data`: the sources, then the combined and the long table. */
  method LoadData(co2Raw: Table, energyRaw: Table, worldBank: Option<Table>,
                  cleanAvailable: bool, clean: string -> string,
                  classify: string -> Option<string>) returns (result: Result<(Table, Table)>)
    requires WellFormed(co2Raw) && WellFormed(energyRaw)
    requires worldBank.Some? ==> WellFormed(worldBank.value)
    ensures result == LoadPipeline(co2Raw, energyRaw, worldBank, cleanAvailable, clean, classify)
  {
    var h := LoadSources(co2Raw, energyRaw, worldBank, cleanAvailable, clean);
    if h.Err? {
      return Err(h.error);
    }
    result := BuildTables(h.value, classify);
  }

  lemma EnrichedRecent(energy: Table, joined: Table, combined: Table)
    requires WellFormed(joined) && joined.columns == CombinedColumns
    requires forall row | row in energy.rows :: EnergyKeep(energy.columns, row)
    requires forall row | row in joined.rows :: exists source ::
      source in energy.rows && |EnergyColumns| <= |row| && row[..|EnergyColumns|] == Cells(energy.columns, source, EnergyColumns)
    requires |combined.rows| == |joined.rows|
    requires forall i :: 0 <= i < |joined.rows| ==>
      Get(combined.columns, combined.rows[i], "year") == Get(joined.columns, joined.rows[i], "year") &&
      Get(combined.columns, combined.rows[i], "iso_code") == Get(joined.columns, joined.rows[i], "iso_code")
    ensures forall row | row in combined.rows ::
      YearFrom(combined.columns, row, YearCutoff) && Get(combined.columns, row, "iso_code").Some?
  {
    forall row | row in combined.rows
      ensures YearFrom(combined.columns, row, YearCutoff) && Get(combined.columns, row, "iso_code").Some?
    {
      var i :| 0 <= i < |combined.rows| && combined.rows[i] == row;
      assert joined.rows[i] in joined.rows;
      JoinedRowRecent(energy, joined.rows[i]);
    }
  }

  lemma JoinedRowRecent(energy: Table, j: Row)
    requires |j| == |CombinedColumns|
    requires forall row | row in energy.rows :: EnergyKeep(energy.columns, row)
    requires exists source ::
      source in energy.rows && |EnergyColumns| <= |j| && j[..|EnergyColumns|] == Cells(energy.columns, source, EnergyColumns)
    ensures YearFrom(CombinedColumns, j, YearCutoff) && Get(CombinedColumns, j, "iso_code").Some?
  {
    var source :| source in energy.rows && |EnergyColumns| <= |j| && j[..|EnergyColumns|] == Cells(energy.columns, source, EnergyColumns);
    CombinedKeyCells(energy.columns, source, j);
  }

  /** The key cells of a combined row are those of its energy row. */
  lemma CombinedKeyCells(columns: seq<string>, source: Row, row: Row)
    requires |row| == |CombinedColumns|
    requires row[..|EnergyColumns|] == Cells(columns, source, EnergyColumns)
    ensures Get(CombinedColumns, row, "year") == Get(columns, source, "year")
    ensures Get(CombinedColumns, row, "iso_code") == Get(columns, source, "iso_code")
  {
    var prefix := row[..|EnergyColumns|];
    assert row == prefix + row[|EnergyColumns|..];
    GetInPrefix(EnergyColumns, ["gdp_percap", "co2_per_capita"], prefix, row[|EnergyColumns|..], "year");
    GetInPrefix(EnergyColumns, ["gdp_percap", "co2_per_capita"], prefix, row[|EnergyColumns|..], "iso_code");
    GetOfCells(columns, source, EnergyColumns, "year");
    GetOfCells(columns, source, EnergyColumns, "iso_code");
  }
}
