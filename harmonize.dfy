/** Bringing the CO2 and energy tables to the common schema
    (app_challenge3.py:27-60): optional name cleaning, renames, the 1990
    cut-off and the non-null `iso_code` requirement. */
module Harmonize {
  import opened Sequences
  import opened Tables

  const YearCutoff: real := 1990.0

  /** Renames applied after `clean_names()` on the CO2 table. */
  const Co2CleanRenames: map<string, string> := map[
    "emissions_total_per_capita" := "co2_per_capita",
    "entity" := "country",
    "code" := "iso_code"
  ]

  /** Renames applied to the CO2 table as fetched. */
  const Co2RawRenames: map<string, string> := map[
    "Entity" := "country",
    "Code" := "iso_code",
    "Year" := "year",
    "emissions_total_per_capita" := "co2_per_capita"
  ]

  /** The nine electricity-source renames of the energy table. */
  const EnergyRenames: map<string, string> := map[
    "biofuel_electricity" := "biofuel",
    "coal_electricity" := "coal",
    "gas_electricity" := "gas",
    "hydro_electricity" := "hydro",
    "nuclear_electricity" := "nuclear",
    "oil_electricity" := "oil",
    "other_renewable_exc_biofuel_electricity" := "other_renewable",
    "solar_electricity" := "solar",
    "wind_electricity" := "wind"
  ]

  /** `clean_names()` applied to a header; the cleaning itself is a parameter. */
  function CleanNames(names: seq<string>, clean: string -> string): (r: seq<string>)
    ensures |r| == |names|
    ensures forall i :: 0 <= i < |names| ==> r[i] == clean(names[i])
  {
    Map(names, clean)
  }

  /** `if CLEAN and hasattr(df, "clean_names"): df = df.clean_names()` */
  function CleanedIfAvailable(t: Table, cleanAvailable: bool, clean: string -> string): (r: Table)
    requires WellFormed(t)
    ensures WellFormed(r) && r.rows == t.rows
    ensures cleanAvailable ==> r.columns == CleanNames(t.columns, clean)
    ensures !cleanAvailable ==> r == t
  {
    if cleanAvailable then Table(CleanNames(t.columns, clean), t.rows) else t
  }

  /** The row's `year` holds a number no smaller than `cutoff` (a missing or
      non-numeric year does not pass the comparison). */
  predicate YearFrom(columns: seq<string>, row: Row, cutoff: real) {
    match NumberAt(columns, row, "year")
    case Some(y) => y >= cutoff
    case None => false
  }

  /** `t[t["year"] >= cutoff]` and `t.query("year >= cutoff")`. */
  function YearAtLeast(t: Table, cutoff: real): (r: Result<Table>)
    requires WellFormed(t)
    ensures r.Err? <==> "year" !in t.columns
    ensures r.Err? ==> r.error == MissingColumn("year")
    ensures r.Ok? ==> r.value == Table(t.columns, Filter(t.rows, (row: Row) => YearFrom(t.columns, row, cutoff)))
    ensures r.Ok? ==> WellFormed(r.value) && IsSubsequence(r.value.rows, t.rows)
    ensures r.Ok? ==> forall row :: row in r.value.rows <==> row in t.rows && YearFrom(t.columns, row, cutoff)
  {
    var _ :- Require(t.columns, ["year"]);
    Ok(Table(t.columns, Filter(t.rows, (row: Row) => YearFrom(t.columns, row, cutoff))))
  }

  /** The CO2 header after the branch on `CLEAN` (lines 27-40). */
  function Co2Header(names: seq<string>, cleanAvailable: bool, clean: string -> string): (r: seq<string>)
    ensures |r| == |names|
  {
    if cleanAvailable then Renamed(CleanNames(names, clean), Co2CleanRenames)
    else Renamed(names, Co2RawRenames)
  }

  /** Both header variants give the same canonical names, provided the
      cleaning turns `Entity`, `Code` and `Year` into their lower-case forms
      and leaves `emissions_total_per_capita` alone. */
  lemma Co2HeadersAgree(names: seq<string>, clean: string -> string)
    requires clean("Entity") == "entity" && clean("Code") == "code" && clean("Year") == "year"
    requires clean("emissions_total_per_capita") == "emissions_total_per_capita"
    ensures forall i :: 0 <= i < |names| && names[i] in Co2RawRenames ==>
      Co2Header(names, true, clean)[i] == Co2Header(names, false, clean)[i] == Co2RawRenames[names[i]]
  {
  }

  /** Lines 23-41: the CO2 table keeps only rows from 1990 on. */
  function HarmonizeCo2(raw: Table, cleanAvailable: bool, clean: string -> string): (r: Result<Table>)
    requires WellFormed(raw)
    ensures r.Err? <==> "year" !in Co2Header(raw.columns, cleanAvailable, clean)
    ensures r.Ok? ==> WellFormed(r.value) && r.value.columns == Co2Header(raw.columns, cleanAvailable, clean)
    ensures r.Ok? ==> IsSubsequence(r.value.rows, raw.rows)
    ensures r.Ok? ==> r.value.rows == Filter(raw.rows, (row: Row) => YearFrom(r.value.columns, row, YearCutoff))
    ensures r.Ok? ==> forall row :: row in r.value.rows <==>
      row in raw.rows && YearFrom(r.value.columns, row, YearCutoff)
  {
    YearAtLeast(Table(Co2Header(raw.columns, cleanAvailable, clean), raw.rows), YearCutoff)
  }

  /** Line 60: rows from 1990 on that have an `iso_code`. */
  predicate EnergyKeep(columns: seq<string>, row: Row) {
    YearFrom(columns, row, YearCutoff) && Get(columns, row, "iso_code").Some?
  }

  /** Line 60: `energy.query("year >= 1990").dropna(subset=["iso_code"])`. */
  function EnergyRows(t: Table): (r: Result<Table>)
    requires WellFormed(t)
    ensures r.Ok? <==> "year" in t.columns && "iso_code" in t.columns
    ensures r.Err? ==> r.error.column in ["year", "iso_code"] && r.error.column !in t.columns
    ensures r.Ok? ==> WellFormed(r.value) && r.value.columns == t.columns
    ensures r.Ok? ==> r.value.rows == Filter(t.rows, (row: Row) => EnergyKeep(t.columns, row))
    ensures r.Ok? ==> IsSubsequence(r.value.rows, t.rows)
    ensures r.Ok? ==> forall row :: row in r.value.rows <==> row in t.rows && EnergyKeep(t.columns, row)
  {
    var recent :- YearAtLeast(t, YearCutoff);
    var r := DropNull(recent, ["iso_code"]);
    if r.Ok? then
      FilterFusion(t.rows, (row: Row) => YearFrom(t.columns, row, YearCutoff),
                   (row: Row) => Present(t.columns, row, ["iso_code"]),
                   (row: Row) => EnergyKeep(t.columns, row));
      r
    else
      r
  }

  /** The energy header after cleaning and the rename of lines 49-59. */
  function EnergyHeader(raw: Table, cleanAvailable: bool, clean: string -> string): seq<string>
    requires WellFormed(raw)
  {
    Renamed(CleanedIfAvailable(raw, cleanAvailable, clean).columns, EnergyRenames)
  }

  /** Lines 44-60 on values: cleaning, the in-place rename, then line 60. */
  function HarmonizeEnergy(raw: Table, cleanAvailable: bool, clean: string -> string): (r: Result<Table>)
    requires WellFormed(raw)
    ensures r.Ok? <==> "year" in EnergyHeader(raw, cleanAvailable, clean) && "iso_code" in EnergyHeader(raw, cleanAvailable, clean)
    ensures r.Err? ==> r.error.column in ["year", "iso_code"] && r.error.column !in EnergyHeader(raw, cleanAvailable, clean)
    ensures r.Ok? ==> WellFormed(r.value)
    ensures r.Ok? ==> r.value.columns == EnergyHeader(raw, cleanAvailable, clean)
    ensures r.Ok? ==> r.value.rows == Filter(raw.rows, (row: Row) => EnergyKeep(r.value.columns, row))
    ensures r.Ok? ==> forall row | row in r.value.rows :: row in raw.rows && EnergyKeep(r.value.columns, row)
  {
    var cleaned := CleanedIfAvailable(raw, cleanAvailable, clean);
    EnergyRows(Table(Renamed(cleaned.columns, EnergyRenames), cleaned.rows))
  }

  /** The energy rename touches exactly the nine listed names. */
  lemma EnergyRenameOnlyListed(names: seq<string>)
    ensures forall i :: 0 <= i < |names| ==>
      (Renamed(names, EnergyRenames)[i] != names[i] <==> names[i] in EnergyRenames && EnergyRenames[names[i]] != names[i])
  {
  }
}
