# Election margins and energy dashboards in Dafny

This project models the data pipelines behind two Streamlit dashboards and
proves what they promise about their tables.

- **Election margins** (`election_margins_app.py`):
  - `generate_sample_data` builds 120 Republican and 120 Democrat counties, each margin clipped into its party's band.
  - The sidebar filter chain selects on state, a minimum vote count and the ticked parties.
  - The party counts are shown under the chart.
  - The `change` column is added.
  - `nlargest`/`nsmallest` pick the five most shifted counties.
- **Electricity, CO2 and GDP** (`app_challenge3.py`):
  - `load_data` brings the OWID CO2 and energy tables to one schema (renames, the 1990 cut-off, non-null `iso_code`).
  - It obtains GDP per capita from the World Bank table or, failing that, computes `gdp / population`.
  - It joins the three tables on `(iso_code, year)`, adds a continent column and melts the nine electricity sources into a long table.
  - The dashboard then slices by country and an inclusive year range and normalises the mix to per-year shares.

Modules, in dependency order:

- `Sequences`: order-preserving filtering, which is the meaning of a boolean mask `df[mask]`.
- `Tables`: dataframes as a header plus rows of nullable cells. A `Result` carries `MissingColumn`, pandas' `KeyError`.
- `Frames`: a class for the two in-place steps, `rename(..., inplace=True)` and `df["continent"] = ...`.
- `Harmonize`, `Gdp`, `Merge`, `Reshape`: the steps of `load_data`.
- `Load`: `load_data` itself, as pure functions and as methods that drive a `Frame`.
- `Dashboard`: the country/year slice and the electricity-mix shares.
- `ElectionSample`: the generator, as a method with two loops over the random draws.
- `ElectionFilters`: the filter chain as a method that reassigns `filtered_df` step by step, plus the party counts.
- `ElectionShifts`: the `change` column and the top-5 selection.

Inputs that come from outside the program are parameters:

- the fetched CSV tables;
- the World Bank table (`None` when the call fails);
- whether `janitor` is importable, and its `clean_names` as a function on names;
- the `country_converter` classifier, as a partial function from names to continents;
- the random draws of the election generator.

Line 86 of `election_margins_app.py` reads a name, `party_filter`, that the script never binds. See "## Findings".

## Model

| member | source | states |
|---|---|---|
| Sequences.Filter | election_margins_app.py:84-86 | a mask keeps exactly the rows that satisfy it, in their original order, and never adds a row |
| Sequences.FilterFusion | election_margins_app.py:83-86 | applying two masks in turn equals one mask with their conjunction |
| Sequences.FilterKeepsAll | election_margins_app.py:82-86 | a mask true on every row returns the input unchanged |
| Sequences.FilterPartition | election_margins_app.py:203-205 | two complementary masks split the rows, so their counts add up to the total |
| Sequences.FilterAppend | app_challenge3.py:132 | masking a concatenation of row blocks is masking each block |
| Sequences.Distinct | app_challenge3.py:174 | the labels of the pivot: each value once, and exactly the values that occur |
| Tables.IndexOf | app_challenge3.py:95-100 | a column label resolves to its first position; the result is absent exactly when the label is not in the header |
| Tables.IndicesOf | app_challenge3.py:95-100 | a list of labels resolves iff every label is in the header; otherwise the error names one missing label |
| Tables.Require | app_challenge3.py:95-100 | succeeds iff every wanted label is in the header; otherwise it names one missing label |
| Tables.Select | app_challenge3.py:95-100 | `df[[...]]` succeeds iff every label is present; the header becomes exactly the list; each row keeps its cells under those labels, in order |
| Tables.DropNull | app_challenge3.py:60 | `dropna(subset=...)` keeps exactly the rows whose cells under the subset are non-null, in order; an unknown label is a `KeyError` |
| Tables.DropNullAll | app_challenge3.py:87 | `dropna()` keeps exactly the complete rows, as an order-preserving subsequence, and leaves the header alone |
| Tables.CompleteCells | app_challenge3.py:87 | a projected row is complete iff the original row is non-null under the projected labels |
| Tables.Renamed | app_challenge3.py:49-59 | each listed name is replaced by its new name; every other name stays; the header length is unchanged |
| Tables.RenamedIgnoresAbsent | app_challenge3.py:59 | with `errors="ignore"`, mapping entries for names that are not in the header have no effect |
| Tables.WithColumn | app_challenge3.py:113 | assigning a column overwrites it in place when it exists and appends it otherwise; the new column reads back the values; every other column reads as before |
| Tables.OverwriteColumn | app_challenge3.py:113 | overwriting an existing column keeps the header, sets that column and leaves the others alone |
| Tables.AppendColumn | app_challenge3.py:113 | a new column is added at the end of the header and of every row; the other columns read as before |
| Frames.Frame.constructor | app_challenge3.py:44-46 | the frame holds the table it is given |
| Frames.Frame.Rename | app_challenge3.py:49-59 | in place: the header becomes the renamed header and the rows are unchanged |
| Frames.Frame.AssignColumn | app_challenge3.py:113-115 | in place: the new table is the old one with the column assigned, and the row count is unchanged |
| Harmonize.CleanNames | app_challenge3.py:47-48 | `clean_names()` yields one name per column, each the cleaning of the original name at that position |
| Harmonize.CleanedIfAvailable | app_challenge3.py:47-48 | when `janitor` is available the header becomes the cleaned header, otherwise the table is unchanged; the rows are never touched |
| Harmonize.YearFrom | app_challenge3.py:41 | the comparison `year >= cutoff` on one row: a numeric year no smaller than the cut-off; a missing year never passes |
| Harmonize.YearAtLeast | app_challenge3.py:41 | fails iff there is no `year` column; otherwise it keeps exactly the rows whose numeric year is at least the cut-off, in order |
| Harmonize.Co2Header | app_challenge3.py:27-40 | both branches give one name per raw column |
| Harmonize.Co2HeadersAgree | app_challenge3.py:27-40 | when `clean_names` lower-cases the four listed headers, the cleaned branch and the raw branch name those columns alike |
| Harmonize.HarmonizeCo2 | app_challenge3.py:27-41 | fails iff the harmonised header lacks `year`; otherwise the header is the harmonised one and the rows are exactly the raw rows from 1990 on, in order |
| Harmonize.EnergyKeep | app_challenge3.py:60 | the row condition of line 60: from 1990 on and with a non-null `iso_code` |
| Harmonize.EnergyRows | app_challenge3.py:60 | fails iff `year` or `iso_code` is missing; otherwise it keeps exactly the rows from 1990 with non-null `iso_code`, in order |
| Harmonize.EnergyHeader | app_challenge3.py:47-59 | the energy header after the optional cleaning and the rename of the nine sources |
| Harmonize.HarmonizeEnergy | app_challenge3.py:47-60 | fails iff the renamed header lacks `year` or `iso_code`, naming the missing one; otherwise the header is the cleaned header with the nine sources renamed, and the rows are exactly the raw rows from 1990 on with an `iso_code`, in order |
| Harmonize.EnergyRenameOnlyListed | app_challenge3.py:49-59 | a column name changes iff it is one of the nine listed names with a different target |
| Gdp.Ratio | app_challenge3.py:88 | the ratio is present iff both cells hold numbers and the population is non-zero, and it is then gdp / population |
| Gdp.PrimaryGdp | app_challenge3.py:75-81 | succeeds iff the renamed World Bank header has `iso_code`, `year` and `gdp_percap`; the result has exactly those three columns and every row has a `gdp_percap` |
| Gdp.GdpPresentInSelection | app_challenge3.py:80-81 | rows kept by `dropna(subset=["gdp_percap"])` still have `gdp_percap` after the projection |
| Gdp.FallbackRow | app_challenge3.py:88-89 | the fallback row of one energy row: its `iso_code`, its `year` and the ratio of its `gdp` to its `population` |
| Gdp.FallbackGdp | app_challenge3.py:87-89 | succeeds iff the energy table has `iso_code`, `year`, `gdp` and `population`; the result has the primary path's three columns and one row per complete row, holding its keys and the ratio |
| Gdp.FallbackRowsAgree | app_challenge3.py:87-89 | projecting, dropping incomplete rows, assigning the ratio and projecting again gives the key cells plus the ratio of every complete energy row |
| Gdp.CompleteRowsAreKept | app_challenge3.py:87 | the rows left after `dropna()` are the projections of the energy rows that are complete under the four columns |
| Gdp.FetchGdpOrFallback | app_challenge3.py:65-89 | the World Bank result when the table is there and shapes correctly, the fallback otherwise; either way the header is `iso_code, year, gdp_percap` |
| Merge.Extra | app_challenge3.py:100-101 | the right-hand columns that are not join keys |
| Merge.KeysOf | app_challenge3.py:101 | the key cells of every row, one per row |
| Merge.Partners | app_challenge3.py:101 | the right rows whose key cells equal the given key, and only those |
| Merge.JoinOne | app_challenge3.py:94-103 | one output row per partner of a left row, each as wide as the left row plus the extra columns |
| Merge.JoinOneMembership | app_challenge3.py:94-103 | a row comes from a left row iff it is that row extended by the extra cells of one of its partners |
| Merge.MergeRows | app_challenge3.py:94-103 | every merged row is as wide as the left header plus the extra columns |
| Merge.MergeRowsMembership | app_challenge3.py:94-103 | a merged row exists iff it is a left row extended by a right row with equal key cells |
| Merge.InnerMerge | app_challenge3.py:94-103 | `how="inner"` succeeds iff both tables have every key; the header is the left header plus the right non-key columns; rows run in left order with partners in right order |
| Merge.MergeMembership | app_challenge3.py:94-110 | an output row exists iff some left row and some matching right row produce it |
| Merge.MergedKey | app_challenge3.py:94-103 | a merged row carries its left row's key cells |
| Merge.MergeKeySet | app_challenge3.py:94-110 | the output's keys are exactly the keys found in both inputs, so a key missing from either input is absent |
| Merge.MergedLeftRows | app_challenge3.py:94-103 | each output row begins with a row of the left table |
| Merge.SelectKeySet | app_challenge3.py:95-100 | projecting onto columns that include the keys keeps the key set |
| Merge.UniquePartners | app_challenge3.py:94-110 | when keys are unique, a key has exactly one partner if it occurs and none otherwise |
| Merge.UniqueMergeCount | app_challenge3.py:94-110 | when right keys are unique, the merged row count equals the number of left rows with a partner |
| Merge.UniqueMergeBound | app_challenge3.py:94-110 | when the right side's keys are unique, the inner merge never has more rows than its left side |
| Reshape.ContinentOf | app_challenge3.py:113-115 | a name the classifier knows gives the classifier's continent; any other cell is passed through unchanged, as `not_found=None` keeps an unmatched entry |
| Reshape.ContinentColumn | app_challenge3.py:113-115 | fails iff there is no `country` column; otherwise one continent cell per row, in row order |
| Reshape.Enrich | app_challenge3.py:113-115 | fails iff there is no `country` column; keeps the row count; sets `continent` per row; leaves every other column's cells alone |
| Reshape.UnmatchedCountryKeepsName | app_challenge3.py:113-115 | a row whose country the classifier does not know is kept, and its continent cell equals its country cell |
| Reshape.MeltCell | app_challenge3.py:120-131 | a melted row has the id cells, the source name and the source's cell |
| Reshape.MeltColumn | app_challenge3.py:120-131 | melting one source gives one row per input row, in row order |
| Reshape.MeltRows | app_challenge3.py:120-131 | melting yields sources times rows rows, each as wide as the id columns plus two |
| Reshape.Melt | app_challenge3.py:120-131 | succeeds iff every id and value column exists; the header is the ids followed by `source` and `value`; the rows are source-major, sources times rows of them |
| Reshape.MeltedValue | app_challenge3.py:120-131 | the `value` column of a melted row reads the source's cell |
| Reshape.MeltedSource | app_challenge3.py:120-131 | the `source` column of a melted row reads the source's name |
| Reshape.MeltedIds | app_challenge3.py:120-131 | the id columns of a melted row are those of the row it came from |
| Reshape.NonNullCells | app_challenge3.py:125-129 | the number of non-null source cells never exceeds sources times rows |
| Reshape.MeltColumnPresent | app_challenge3.py:118-133 | the melted rows of one source that have a value are the melted input rows that have that source |
| Reshape.MeltDropCount | app_challenge3.py:118-133 | after `dropna(subset=["value"])` the long table has exactly one row per non-null source cell |
| Reshape.MeltRowsMembership | app_challenge3.py:120-131 | a row is melted iff it is some input row melted for some listed source |
| Reshape.MeltPresentMembership | app_challenge3.py:118-133 | the long rows with a value are exactly the (row, source) pairs with a non-null cell, melted |
| Load.JoinOn | app_challenge3.py:94-110 | a merge on `(iso_code, year)` that brings one value column: fails iff a key or the value is missing; the key set is the intersection; every row starts with a left row |
| Load.JoinBoth | app_challenge3.py:94-110 | both merges: fail iff GDP or CO2 lacks a key or its value; the header is the energy columns, `gdp_percap` and `co2_per_capita`; the key set is the three-way intersection; each row starts with an energy row |
| Load.CombineSources | app_challenge3.py:94-110 | succeeds iff all thirteen energy columns and the GDP and CO2 keys and values exist; the key set is the intersection of all three inputs; each row's energy part is an energy row's cells |
| Load.LongEnergy | app_challenge3.py:117-133 | fails iff an id or source column is missing; the header is the seven ids plus `source` and `value`; the row count is the number of non-null source cells; the rows are exactly the melted rows with a value |
| Load.LongEnergyRows | app_challenge3.py:117-133 | a long row exists iff some combined row has a non-null cell for some source; its id cells are copied from that row |
| Load.HarmonizeAll | app_challenge3.py:22-91 | the co2 rows are raw rows from 1990 on; the energy rows are exactly the raw rows from 1990 on with an `iso_code`, in order; GDP has its three columns; a CO2 header without `year` is an error |
| Load.Assemble | app_challenge3.py:93-135 | every combined row is from 1990 on with an `iso_code`; the combined key set is the intersection of the energy, GDP and CO2 key sets; the header is the joined columns followed by `continent`, and each row's continent is its own country's; the long table is the combined table melted and stripped of nulls, one row per non-null source cell |
| Load.EnrichKeySet | app_challenge3.py:113-115 | adding the continent keeps the set of `(iso_code, year)` keys |
| Load.EnrichedContinent | app_challenge3.py:113-115 | the continent column is appended after the joined columns and holds each row's own country's continent |
| Load.EnrichKeepsKeys | app_challenge3.py:113-115 | adding the continent keeps the row count and each row's `year` and `iso_code` |
| Load.EnrichKeeps | app_challenge3.py:113-115 | adding the continent leaves any other column's cells as they were |
| Load.EnrichedRecent | app_challenge3.py:60-115 | every enriched row has a year of at least 1990 and an `iso_code`, inherited from the energy row it came from |
| Load.JoinedRowRecent | app_challenge3.py:60-110 | a joined row built from a kept energy row has its year and `iso_code` |
| Load.CombinedKeyCells | app_challenge3.py:94-99 | a combined row reads the same `year` and `iso_code` as the energy row it came from |
| Load.LoadPipeline | app_challenge3.py:21-135 | `load_data`: the combined rows are from 1990 on with an `iso_code`; their key set is the intersection of the three harmonised tables' key sets; the header ends with `continent`, each row's continent being its own country's; the long table is their non-null melt with one row per non-null source cell; a CO2 header without `year` is an error |
| Load.LoadEnergy | app_challenge3.py:44-60 | renaming the energy frame in place and then filtering gives the harmonised energy table |
| Load.LoadSources | app_challenge3.py:22-91 | the three harmonised sources, built with the in-place rename, equal the functional harmonisation |
| Load.BuildTables | app_challenge3.py:93-135 | joining, assigning the continent in place and melting equals the functional pipeline |
| Load.LoadData | app_challenge3.py:21-135 | the stateful `load_data` equals `Load.LoadPipeline` and so inherits its guarantees |
| Dashboard.InSlice | app_challenge3.py:155 | the mask of line 155 on one row: the selected country and a numeric year in the inclusive range |
| Dashboard.CountryYearFilter | app_challenge3.py:155-159 | fails iff `country` or `year` is missing; otherwise it keeps, in order, exactly the rows with the selected country and a year in the inclusive range |
| Dashboard.NarrowerSlice | app_challenge3.py:155-159 | slicing an already sliced table to a narrower range equals slicing the original |
| Dashboard.EntryOf | app_challenge3.py:174 | a long row contributes iff its year and value are numbers and its source is a name, and the entry is then exactly that year, source and value |
| Dashboard.Entries | app_challenge3.py:174 | the contributing rows, at most one entry per row |
| Dashboard.EntriesMembership | app_challenge3.py:174 | an entry is listed iff some row yields it |
| Dashboard.MixEntries | app_challenge3.py:174 | fails iff `year`, `source` or `value` is missing; otherwise it lists exactly the entries the rows yield |
| Dashboard.GroupSum | app_challenge3.py:174 | an unobserved (year, source) sums to 0; with non-negative values the sum is non-negative |
| Dashboard.YearTotal | app_challenge3.py:175 | a non-zero year total has an entry of that year; with non-negative values it is non-negative |
| Dashboard.Years | app_challenge3.py:174 | the pivot's index: each year once, and a year is in it iff some entry has that year |
| Dashboard.SourceNames | app_challenge3.py:174 | the pivot's columns: each source once, and a source is in it iff some entry has that source |
| Dashboard.ShareCell | app_challenge3.py:175-178 | a cell survives `dropna` iff the (year, source) was observed and the year total is non-zero; its share is the group sum over the year total |
| Dashboard.ShareColumn | app_challenge3.py:176-177 | the melted column of one source: the surviving cells of that source, year by year |
| Dashboard.ShareRows | app_challenge3.py:176-177 | `reset_index().melt(...)`: the melted columns of all sources, one source after another |
| Dashboard.ShareColumnMembership | app_challenge3.py:176-178 | a share is in one source's melted column iff its year is listed and its cell survives |
| Dashboard.ShareRowsMembership | app_challenge3.py:176-178 | a share is in the melted table iff its year and source are listed and its cell survives |
| Dashboard.LabelledShareRows | app_challenge3.py:174-178 | when the labels cover every entry, a share is in the melted table iff its cell survives |
| Dashboard.MixShares | app_challenge3.py:172-178 | a share is in the mix iff its year and source were observed, the year total is non-zero, and the share is the group sum over the year total |
| Dashboard.YearShare | app_challenge3.py:175 | the sum of the shares of one year in the mix |
| Dashboard.YearShareColumn | app_challenge3.py:175-178 | one source's shares for a year add up to that cell's share when the year is listed, and to 0 otherwise |
| Dashboard.YearShareRows | app_challenge3.py:175-178 | the shares of a listed year add up to the sum of its cells' shares over all sources |
| Dashboard.CellSumIsRatio | app_challenge3.py:175 | the sum of a year's shares is the sum of its groups over the year total |
| Dashboard.SourceSumIsTotal | app_challenge3.py:174-175 | summing a year's groups over all sources gives the year total |
| Dashboard.SharesSumToOne | app_challenge3.py:175-178 | for every year whose total is non-zero, the shares in the mix sum to 1 |
| Dashboard.GroupSumAtMost | app_challenge3.py:174-175 | with non-negative values, one group is at most the year's sum over any list of sources that contains it |
| Dashboard.SourceSumNonNegative | app_challenge3.py:174-175 | with non-negative values the year's group sum is non-negative |
| Dashboard.SharesAreFractions | app_challenge3.py:175-178 | with non-negative values every share lies in [0, 1] |
| Dashboard.SliceEntries | app_challenge3.py:155-159 | the entries of the rows in the selected country and years |
| Dashboard.ElectricityMix | app_challenge3.py:155-178 | fails iff `country`, `year`, `source` or `value` is missing; the mix is that of the slice's entries; for every year whose total is non-zero its shares sum to 1; every share's year lies in the selected range, and its year and source come from a row of the selected country |
| Dashboard.MixYearsInRange | app_challenge3.py:155-178 | the shares computed from the slice have years in the range and come from rows of the slice |
| ElectionSample.Clip | election_margins_app.py:27-28 | `np.clip` returns a point of the band, and the point of the band nearest to its argument |
| ElectionSample.BandGivesSign | election_margins_app.py:26-28 | margins inside the party's band have the party's sign in both years |
| ElectionSample.Votes | election_margins_app.py:35 | `randint(100, 80000)` lies in [100, 80000) |
| ElectionSample.Decimal | election_margins_app.py:31 | `str(n)` has at least one digit, and at least two from 10 on |
| ElectionSample.ParseDecimal | election_margins_app.py:31 | reading the decimal digits of `n` back gives `n` |
| ElectionSample.DecimalInjective | election_margins_app.py:31 | different numbers print differently |
| ElectionSample.CountyName | election_margins_app.py:31 | `f"County {i+1}"`: the prefix `County ` followed by the decimal digits of `i + 1` |
| ElectionSample.PartyAt | election_margins_app.py:20-57 | the first 120 positions come from the Republican loop, all later ones from the Democrat loop |
| ElectionSample.CountyNamesDistinct | election_margins_app.py:31 | `f"County {i+1}"` differs for different `i` |
| ElectionSample.MakeCounty | election_margins_app.py:21-36 | a record carries its name and party, a state from the list, margins in its party's band and votes in [100, 80000) |
| ElectionSample.GenerateSampleData | election_margins_app.py:11-59 | 240 records, the first 120 Republican and the rest Democrat, named "County 1" to "County 240", all distinct; every record's margins are in its band with its party's sign, its state is listed and its votes are in [100, 80000) |
| ElectionSample.SampleFacts | election_margins_app.py:20-57 | whatever the draws, the records built by the loops share those properties |
| ElectionFilters.PartyFilter | election_margins_app.py:78-79 | a party is selected iff its checkbox is ticked |
| ElectionFilters.Survives | election_margins_app.py:83-86 | a county survives iff it is in the chosen state (any state for "All"), has at least the minimum votes and is of a selected party |
| ElectionFilters.Filtered | election_margins_app.py:82-86 | the result is the input masked by `Survives`, so every surviving county is kept as often as it occurs, in order; a county is in it iff it is in the input, in the chosen state (or "All"), with at least the minimum votes and of a selected party |
| ElectionFilters.ApplyFilters | election_margins_app.py:82-86 | the chain of reassignments on the copy gives exactly `Filtered` with the ticked parties; the input is a value and is never changed |
| ElectionFilters.DefaultFiltersKeepAll | election_margins_app.py:68-86 | with "All", a threshold of 0 and both boxes ticked, the output equals the input |
| ElectionFilters.PartyCount | election_margins_app.py:204-205 | a party's count is at most the number of rows, and 0 iff no row has that party |
| ElectionFilters.CountsAddUp | election_margins_app.py:203-205 | the Republican and Democrat counts add up to the total count |
| ElectionFilters.HiddenPartyCountsZero | election_margins_app.py:78-86 | a party whose box is unticked has a count of 0 after filtering |
| ElectionFilters.FilterChainAsWritten | election_margins_app.py:82-86 | the chain as written: a `NameError` when `party_filter` is unbound, the filtered rows for the bound set otherwise |
| ElectionFilters.FilterChainAgrees | election_margins_app.py:82-86 | the three successive masks equal the single conjunctive filter |
| ElectionFilters.AsWrittenRaises | election_margins_app.py:86 | with the names the script binds, the chain raises `NameError` whatever the sidebar says; binding the ticked parties completes it |
| ElectionShifts.WithChange | election_margins_app.py:208 | one row per county, the county unchanged, and `margin_2020 + change == margin_2024` |
| ElectionShifts.ChangeWithinBand | election_margins_app.py:208 | for a county in its band the change lies in [-94, 94] and is positive iff the 2024 margin is larger |
| ElectionShifts.Changes | election_margins_app.py:213 | the `change` column, one key per row |
| ElectionShifts.Before | election_margins_app.py:213-218 | the `keep="first"` ranking of `nlargest`/`nsmallest`: a strictly more extreme change ranks first, and on equal changes the earlier row ranks first |
| ElectionShifts.BeforeTotal | election_margins_app.py:213 | of two different rows exactly one ranks first (larger key, ties to the earlier row) |
| ElectionShifts.BeforeTransitive | election_margins_app.py:213 | ranking is transitive |
| ElectionShifts.Insert | election_margins_app.py:213 | inserting an index adds exactly that index |
| ElectionShifts.InsertKeepsRanked | election_margins_app.py:213 | inserting into a ranked list keeps it ranked |
| ElectionShifts.HeadAheadOfInsert | election_margins_app.py:213 | the head of a ranked list stays ahead of everything after an insertion into its tail |
| ElectionShifts.Rank | election_margins_app.py:213 | ranking permutes the indices |
| ElectionShifts.RankSorts | election_margins_app.py:213 | ranking distinct indices produces a ranked list |
| ElectionShifts.TopIndices | election_margins_app.py:213-218 | min(n, rows) distinct indices in ranking order |
| ElectionShifts.RankedDistinct | election_margins_app.py:213 | a ranked list has no repeated index |
| ElectionShifts.TopIsBest | election_margins_app.py:213-218 | every chosen index ranks ahead of every index left out |
| ElectionShifts.Chosen | election_margins_app.py:213-218 | min(n, rows) distinct row indices |
| ElectionShifts.Project | election_margins_app.py:213-218 | the five shown columns: county, state, the two margins and change, copied from the row |
| ElectionShifts.MostShifted | election_margins_app.py:213-218 | min(n, rows) rows projected onto county, state, the two margins and change, the changes descending for `nlargest` and ascending for `nsmallest`; shown rows with equal changes keep their input order |
| ElectionShifts.MostShiftedIsBest | election_margins_app.py:213-218 | a row left out has a change no larger (no smaller for `nsmallest`) than any shown, and on a tie the shown row comes first (`keep="first"`) |
| ElectionShifts.MostRepublicanShift | election_margins_app.py:213 | min(5, rows) input rows, projected onto the five shown columns, in descending order of change, equal changes in input order; no row left out has a larger change, and on a tie the row shown comes earlier |
| ElectionShifts.MostDemocratShift | election_margins_app.py:218 | min(5, rows) input rows, projected onto the five shown columns, in ascending order of change, equal changes in input order; no row left out has a smaller change, and on a tie the row shown comes earlier |

## Left out

- Streamlit widgets, layout, metrics, tabs and all Plotly figures are presentation calls into external libraries.
  - Selectbox, slider and checkbox values are parameters.
  - `rep_data`/`dem_data` (election_margins_app.py:95-96) only feed the chart.
  - The country list and its default index (app_challenge3.py:144-152) only feed a widget.
- Network reads (`pd.read_csv` on URLs, the World Bank call) become input tables.
  - A failed World Bank call is `None`; the `st.warning` text is not modelled.
- `@st.cache_data` has no effect on results and is not modelled.
- `janitor.clean_names` and `country_converter` are foreign libraries. They are parameters: a function on names, and a partial function from country names to continents.
- `np.random` is not modelled. Each county takes its five draws from an input `Draw`.
  - `choice` is an index taken modulo the eight states.
  - `randint` is 100 plus the raw draw modulo 79900.
  - The base and noise are arbitrary reals, so the `uniform`/`normal` ranges are not enforced. The guarantees hold for any draws.
- ElectionSample.MakeCounty: does not model `round(..., 1)` or IEEE floats. Margins are exact reals; the band end points are whole numbers, so rounding to one decimal keeps them in the band.
- Gdp.Ratio: a zero population gives a missing cell instead of pandas' `inf`/`NaN`.
- Dashboard.MixShares: the shares are listed in first-appearance order of years and sources, not in the sorted order of `pivot_table`; membership and sums do not depend on order.
  - A year whose total is zero has no shares. pandas gives `NaN` for `0/0`, which `dropna` drops, but `inf` for a non-zero value over a zero total.
- Harmonize.YearFrom: a text cell under `year` fails the cut-off, where pandas would raise `TypeError` on comparing a string with a number.
- Dashboard.InSlice: a text cell under `year` falls outside the slice, where pandas' `between` would raise `TypeError`.
- Gdp.Ratio: a text cell under `gdp` or `population` gives a missing ratio, where pandas would raise `TypeError` on dividing a string.
- Dashboard.EntryOf: long rows whose `year` or `value` is not a number, or whose `source` is not a name, are skipped. pandas would raise or propagate `NaN`.
- Merge.InnerMerge: the `_x`/`_y` suffixes pandas adds when both sides share a non-key column are not modelled; the dashboards never merge such columns.
- Tables: a header with a repeated label resolves to its first occurrence.
- Load.HarmonizeAll: success is not characterised as an iff. Only the CO2 `year` failure is stated as forcing an error.
- Load.LoadPipeline: the same applies; only the CO2 `year` failure is stated as forcing an error.
- CSV export and byte encoding are not modelled.

## Findings

| source | as written | input that shows it | evidently intended | confidence | as-written member | corrected member |
|---|---|---|---|---|---|---|
| election_margins_app.py:86 | `filtered_df["party"].isin(party_filter)` reads `party_filter`, which no line of the script binds, so the chain raises `NameError` | any sidebar state, e.g. "All", 0 votes, both boxes ticked | the set of parties whose checkbox is ticked (lines 78-79) | not executed | ElectionFilters.AsWrittenRaises | ElectionFilters.ApplyFilters |
