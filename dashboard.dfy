/** The energy dashboard's views after loading (app_challenge3.py:155-178):
    the country and year-range slice, and the electricity-mix shares. */
module Dashboard {
  import opened Sequences
  import opened Tables

  /** `(t["country"] == country) & t["year"].between(lo, hi)`: `between` is
      inclusive at both ends, and a missing year or country never matches. */
  predicate InSlice(columns: seq<string>, row: Row, country: string, lo: real, hi: real) {
    Get(columns, row, "country") == Some(Text(country)) &&
    match NumberAt(columns, row, "year")
    case Some(y) => lo <= y <= hi
    case None => false
  }

  /** Lines 155-159: the slice of one country over the selected years, used
      for both the combined and the long table. */
  function CountryYearFilter(t: Table, country: string, lo: real, hi: real): (r: Result<Table>)
    requires WellFormed(t)
    ensures r.Ok? <==> "country" in t.columns && "year" in t.columns
    ensures r.Err? ==> r.error.column in ["country", "year"] && r.error.column !in t.columns
    ensures r.Ok? ==> WellFormed(r.value) && r.value.columns == t.columns
    ensures r.Ok? ==> IsSubsequence(r.value.rows, t.rows)
    ensures r.Ok? ==> r.value.rows == Filter(t.rows, (row: Row) => InSlice(t.columns, row, country, lo, hi))
    ensures r.Ok? ==> forall row :: row in r.value.rows <==> row in t.rows && InSlice(t.columns, row, country, lo, hi)
  {
    var _ :- Require(t.columns, ["country", "year"]);
    Ok(Table(t.columns, Filter(t.rows, (row: Row) => InSlice(t.columns, row, country, lo, hi))))
  }

  /** Slicing a slice with a narrower year range is slicing once. */
  lemma NarrowerSlice(t: Table, country: string, lo: real, hi: real, lo2: real, hi2: real, s: Table)
    requires WellFormed(t) && lo <= lo2 && hi2 <= hi
    requires CountryYearFilter(t, country, lo, hi) == Ok(s)
    ensures CountryYearFilter(s, country, lo2, hi2) == CountryYearFilter(t, country, lo2, hi2)
  {
    FilterFusion(t.rows,
      (row: Row) => InSlice(t.columns, row, country, lo, hi),
      (row: Row) => InSlice(t.columns, row, country, lo2, hi2),
      (row: Row) => InSlice(t.columns, row, country, lo2, hi2));
  }

  /** A list without repetitions. */
  predicate NoDuplicates<T(==)>(s: seq<T>) {
    forall i, j :: 0 <= i < j < |s| ==> s[i] != s[j]
  }

  /** One long row as the pivot sees it: a year, a source and its value. */
  datatype Entry = Entry(year: real, source: string, value: real)

  /** A long row with a numeric year, a named source and a numeric value is
      an entry; the others are not aggregated. */
  function EntryOf(columns: seq<string>, row: Row): (r: Option<Entry>)
    ensures r.Some? <==> NumberAt(columns, row, "year").Some? && NumberAt(columns, row, "value").Some? &&
                         Get(columns, row, "source").Some? && Get(columns, row, "source").value.Text?
    ensures r.Some? ==> r.value == Entry(NumberAt(columns, row, "year").value, Get(columns, row, "source").value.text,
                                         NumberAt(columns, row, "value").value)
  {
    match (NumberAt(columns, row, "year"), Get(columns, row, "source"), NumberAt(columns, row, "value"))
    case (Some(y), Some(Text(s)), Some(v)) => Some(Entry(y, s, v))
    case _ => None
  }

  /** The entries of the long rows, in row order. */
  function MixEntries(t: Table): (r: Result<seq<Entry>>)
    ensures r.Ok? <==> "year" in t.columns && "source" in t.columns && "value" in t.columns
    ensures r.Err? ==> r.error.column in ["year", "source", "value"] && r.error.column !in t.columns
    ensures r.Ok? ==> forall e :: e in r.value <==> exists row :: row in t.rows && EntryOf(t.columns, row) == Some(e)
  {
    var _ :- Require(t.columns, ["year", "source", "value"]);
    forall e ensures e in Entries(t.columns, t.rows) <==> exists row :: row in t.rows && EntryOf(t.columns, row) == Some(e) {
      EntriesMembership(t.columns, t.rows, e);
    }
    Ok(Entries(t.columns, t.rows))
  }

  function Entries(columns: seq<string>, rows: seq<Row>): (r: seq<Entry>)
    ensures |r| <= |rows|
  {
    if |rows| == 0 then []
    else
      match EntryOf(columns, rows[0])
      case Some(e) => [e] + Entries(columns, rows[1..])
      case None => Entries(columns, rows[1..])
  }

  lemma {:induction false} EntriesMembership(columns: seq<string>, rows: seq<Row>, e: Entry)
    ensures e in Entries(columns, rows) <==> exists row :: row in rows && EntryOf(columns, row) == Some(e)
  {
    if |rows| > 0 {
      EntriesMembership(columns, rows[1..], e);
      assert rows == [rows[0]] + rows[1..];
    }
  }

  /** Some entry has this year and source: the pivot has a cell for them. */
  predicate Observed(es: seq<Entry>, y: real, s: string) {
    exists e :: e in es && e.year == y && e.source == s
  }

  /** `aggfunc="sum"`: the total value of one year and source. */
  function GroupSum(es: seq<Entry>, y: real, s: string): (r: real)
    ensures !Observed(es, y, s) ==> r == 0.0
    ensures (forall e | e in es :: e.value >= 0.0) ==> r >= 0.0
  {
    if |es| == 0 then 0.0
    else
      assert forall e | e in es[1..] :: e in es;
      (if es[0].year == y && es[0].source == s then es[0].value else 0.0) + GroupSum(es[1..], y, s)
  }

  /** `r.sum()` over a pivot row: the total value of one year. */
  function YearTotal(es: seq<Entry>, y: real): (r: real)
    ensures r != 0.0 ==> exists e :: e in es && e.year == y
    ensures (forall e | e in es :: e.value >= 0.0) ==> r >= 0.0
  {
    if |es| == 0 then 0.0
    else
      assert forall e | e in es[1..] :: e in es;
      (if es[0].year == y then es[0].value else 0.0) + YearTotal(es[1..], y)
  }

  /** One row of the mix. */
  datatype Share = Share(year: real, source: string, share: real)

  /** The share of one pivot cell; an empty cell, or a year whose total is
      zero (`0 / 0`), gives NaN and is dropped by `dropna`. */
  function ShareCell(es: seq<Entry>, y: real, s: string): (r: seq<Share>)
    ensures |r| <= 1
    ensures |r| == 1 <==> Observed(es, y, s) && YearTotal(es, y) != 0.0
    ensures |r| == 1 ==> r[0] == Share(y, s, GroupSum(es, y, s) / YearTotal(es, y))
  {
    if Observed(es, y, s) && YearTotal(es, y) != 0.0 then [Share(y, s, GroupSum(es, y, s) / YearTotal(es, y))] else []
  }

  /** The melted column of one source, year by year. */
  function ShareColumn(es: seq<Entry>, years: seq<real>, s: string): seq<Share> {
    if |years| == 0 then []
    else ShareCell(es, years[0], s) + ShareColumn(es, years[1..], s)
  }

  /** `melt(id_vars="year", var_name="source")` is source-major. */
  function ShareRows(es: seq<Entry>, years: seq<real>, sources: seq<string>): seq<Share> {
    if |sources| == 0 then []
    else ShareColumn(es, years, sources[0]) + ShareRows(es, years, sources[1..])
  }

  /** Some entry has year `y`. */
  predicate HasYear(es: seq<Entry>, y: real) {
    exists e | e in es :: e.year == y
  }

  /** Some entry has source `s`. */
  predicate HasSource(es: seq<Entry>, s: string) {
    exists e | e in es :: e.source == s
  }

  /** The pivot's row labels and column labels. */
  function Years(es: seq<Entry>): (r: seq<real>)
    ensures NoDuplicates(r)
    ensures forall y :: y in r <==> HasYear(es, y)
  {
    var ys := Map(es, (e: Entry) => e.year);
    assert forall e | e in es :: e.year in ys by {
      forall e | e in es ensures e.year in ys {
        var i :| 0 <= i < |es| && es[i] == e;
        assert ys[i] == e.year;
      }
    }
    assert forall y | y in ys :: exists e | e in es :: e.year == y by {
      forall y | y in ys ensures exists e | e in es :: e.year == y {
        var i :| 0 <= i < |ys| && ys[i] == y;
        assert es[i] in es;
      }
    }
    Distinct(ys)
  }

  function SourceNames(es: seq<Entry>): (r: seq<string>)
    ensures NoDuplicates(r)
    ensures forall s :: s in r <==> HasSource(es, s)
  {
    var ss := Map(es, (e: Entry) => e.source);
    assert forall e | e in es :: e.source in ss by {
      forall e | e in es ensures e.source in ss {
        var i :| 0 <= i < |es| && es[i] == e;
        assert ss[i] == e.source;
      }
    }
    assert forall s | s in ss :: exists e | e in es :: e.source == s by {
      forall s | s in ss ensures exists e | e in es :: e.source == s {
        var i :| 0 <= i < |ss| && ss[i] == s;
        assert es[i] in es;
      }
    }
    Distinct(ss)
  }

  /** Lines 174-178 on the entries: every observed year and source whose year
      total is not zero, with its share of that total. */
  function MixShares(es: seq<Entry>): (r: seq<Share>)
    ensures forall sh :: sh in r <==>
      Observed(es, sh.year, sh.source) && YearTotal(es, sh.year) != 0.0 &&
      sh.share == GroupSum(es, sh.year, sh.source) / YearTotal(es, sh.year)
  {
    var years := Years(es);
    var sources := SourceNames(es);
    forall sh ensures sh in ShareRows(es, years, sources) <==>
      Observed(es, sh.year, sh.source) && YearTotal(es, sh.year) != 0.0 &&
      sh.share == GroupSum(es, sh.year, sh.source) / YearTotal(es, sh.year)
    {
      LabelledShareRows(es, years, sources, sh);
    }
    ShareRows(es, years, sources)
  }

  /** With labels that cover every entry, the label conditions drop out. */
  lemma LabelledShareRows(es: seq<Entry>, years: seq<real>, sources: seq<string>, sh: Share)
    requires forall e | e in es :: e.year in years
    requires forall e | e in es :: e.source in sources
    ensures sh in ShareRows(es, years, sources) <==>
      Observed(es, sh.year, sh.source) && YearTotal(es, sh.year) != 0.0 &&
      sh.share == GroupSum(es, sh.year, sh.source) / YearTotal(es, sh.year)
  {
    ShareRowsMembership(es, years, sources, sh);
  }

  lemma {:induction false} ShareColumnMembership(es: seq<Entry>, years: seq<real>, s: string, sh: Share)
    ensures sh in ShareColumn(es, years, s) <==>
      sh.source == s && sh.year in years && Observed(es, sh.year, s) && YearTotal(es, sh.year) != 0.0 &&
      sh.share == GroupSum(es, sh.year, s) / YearTotal(es, sh.year)
  {
    if |years| > 0 {
      ShareColumnMembership(es, years[1..], s, sh);
      assert years == [years[0]] + years[1..];
    }
  }

  lemma {:induction false} ShareRowsMembership(es: seq<Entry>, years: seq<real>, sources: seq<string>, sh: Share)
    ensures sh in ShareRows(es, years, sources) <==>
      sh.source in sources && sh.year in years && Observed(es, sh.year, sh.source) && YearTotal(es, sh.year) != 0.0 &&
      sh.share == GroupSum(es, sh.year, sh.source) / YearTotal(es, sh.year)
  {
    if |sources| > 0 {
      ShareColumnMembership(es, years, sources[0], sh);
      ShareRowsMembership(es, years, sources[1..], sh);
      assert sources == [sources[0]] + sources[1..];
    }
  }

  /** The total share given to year `y` in a list of mix rows. */
  function YearShare(out: seq<Share>, y: real): real {
    if |out| == 0 then 0.0
    else (if out[0].year == y then out[0].share else 0.0) + YearShare(out[1..], y)
  }

  lemma {:induction false} YearShareAppend(a: seq<Share>, b: seq<Share>, y: real)
    ensures YearShare(a + b, y) == YearShare(a, y) + YearShare(b, y)
  {
    if |a| == 0 {
      assert a + b == b;
    } else {
      assert (a + b)[1..] == a[1..] + b;
      YearShareAppend(a[1..], b, y);
    }
  }

  /** The share of one pivot cell as a number, zero when it is dropped. */
  function CellShare(es: seq<Entry>, y: real, s: string): real {
    if Observed(es, y, s) && YearTotal(es, y) != 0.0 then GroupSum(es, y, s) / YearTotal(es, y) else 0.0
  }

  lemma {:induction false} YearShareColumn(es: seq<Entry>, years: seq<real>, s: string, y: real)
    requires NoDuplicates(years)
    ensures YearShare(ShareColumn(es, years, s), y) == if y in years then CellShare(es, y, s) else 0.0
  {
    if |years| > 0 {
      var rest := years[1..];
      assert NoDuplicates(rest) by {
        forall i, j | 0 <= i < j < |rest| ensures rest[i] != rest[j] {
          assert rest[i] == years[i + 1] && rest[j] == years[j + 1];
        }
      }
      YearShareColumn(es, rest, s, y);
      YearShareAppend(ShareCell(es, years[0], s), ShareColumn(es, rest, s), y);
      assert years == [years[0]] + rest;
      if years[0] == y {
        assert y !in rest by {
          forall j | 0 <= j < |rest| ensures rest[j] != y {
            assert rest[j] == years[j + 1];
          }
        }
      }
    }
  }

  /** The shares of year `y` over a list of sources. */
  function CellSum(es: seq<Entry>, y: real, sources: seq<string>): real {
    if |sources| == 0 then 0.0
    else CellShare(es, y, sources[0]) + CellSum(es, y, sources[1..])
  }

  /** The totals of year `y` over a list of sources. */
  function SourceSum(es: seq<Entry>, y: real, sources: seq<string>): real {
    if |sources| == 0 then 0.0
    else GroupSum(es, y, sources[0]) + SourceSum(es, y, sources[1..])
  }

  lemma {:induction false} YearShareRows(es: seq<Entry>, years: seq<real>, sources: seq<string>, y: real)
    requires NoDuplicates(years) && y in years
    ensures YearShare(ShareRows(es, years, sources), y) == CellSum(es, y, sources)
  {
    if |sources| > 0 {
      YearShareColumn(es, years, sources[0], y);
      YearShareRows(es, years, sources[1..], y);
      YearShareAppend(ShareColumn(es, years, sources[0]), ShareRows(es, years, sources[1..]), y);
    }
  }

  lemma DivAdd(a: real, b: real, t: real)
    requires t != 0.0
    ensures a / t + b / t == (a + b) / t
  {
  }

  lemma {:induction false} CellSumIsRatio(es: seq<Entry>, y: real, sources: seq<string>)
    requires YearTotal(es, y) != 0.0
    ensures CellSum(es, y, sources) == SourceSum(es, y, sources) / YearTotal(es, y)
  {
    if |sources| > 0 {
      CellSumIsRatio(es, y, sources[1..]);
      DivAdd(GroupSum(es, y, sources[0]), SourceSum(es, y, sources[1..]), YearTotal(es, y));
    }
  }

  /** The value one entry adds to the totals of year `y` over `sources`. */
  function Hits(e: Entry, y: real, sources: seq<string>): real {
    if |sources| == 0 then 0.0
    else (if e.year == y && e.source == sources[0] then e.value else 0.0) + Hits(e, y, sources[1..])
  }

  lemma {:induction false} HitsAbsent(e: Entry, y: real, sources: seq<string>)
    requires e.source !in sources
    ensures Hits(e, y, sources) == 0.0
  {
    if |sources| > 0 {
      HitsAbsent(e, y, sources[1..]);
    }
  }

  lemma {:induction false} HitsOnce(e: Entry, y: real, sources: seq<string>)
    requires NoDuplicates(sources) && e.source in sources
    ensures Hits(e, y, sources) == if e.year == y then e.value else 0.0
  {
    var rest := sources[1..];
    if sources[0] == e.source {
      assert e.source !in rest by {
        forall j | 0 <= j < |rest| ensures rest[j] != e.source {
          assert rest[j] == sources[j + 1];
        }
      }
      HitsAbsent(e, y, rest);
    } else {
      assert e.source in rest;
      assert NoDuplicates(rest) by {
        forall i, j | 0 <= i < j < |rest| ensures rest[i] != rest[j] {
          assert rest[i] == sources[i + 1] && rest[j] == sources[j + 1];
        }
      }
      HitsOnce(e, y, rest);
    }
  }

  lemma {:induction false} SourceSumHead(es: seq<Entry>, y: real, sources: seq<string>)
    requires |es| > 0
    ensures SourceSum(es, y, sources) == Hits(es[0], y, sources) + SourceSum(es[1..], y, sources)
  {
    if |sources| > 0 {
      SourceSumHead(es, y, sources[1..]);
    }
  }

  /** Summing the pivot row's cells gives the year's total. */
  lemma {:induction false} SourceSumIsTotal(es: seq<Entry>, y: real, sources: seq<string>)
    requires NoDuplicates(sources)
    requires forall e | e in es :: e.source in sources
    ensures SourceSum(es, y, sources) == YearTotal(es, y)
  {
    if |es| == 0 {
      SourceSumEmpty(es, y, sources);
    } else {
      assert es[0] in es;
      assert forall e | e in es[1..] :: e in es;
      SourceSumHead(es, y, sources);
      HitsOnce(es[0], y, sources);
      SourceSumIsTotal(es[1..], y, sources);
    }
  }

  lemma {:induction false} SourceSumEmpty(es: seq<Entry>, y: real, sources: seq<string>)
    requires |es| == 0
    ensures SourceSum(es, y, sources) == 0.0
  {
    if |sources| > 0 {
      SourceSumEmpty(es, y, sources[1..]);
    }
  }

  /** Line 175 divides each pivot row by its sum: the shares of every year
      that has a non-zero total add up to one. */
  lemma SharesSumToOne(es: seq<Entry>, y: real)
    requires YearTotal(es, y) != 0.0
    ensures YearShare(MixShares(es), y) == 1.0
  {
    var years := Years(es);
    var sources := SourceNames(es);
    var total := YearTotal(es, y);
    var e :| e in es && e.year == y;
    assert y in years;
    assert MixShares(es) == ShareRows(es, years, sources);
    YearShareRows(es, years, sources, y);
    CellSumIsRatio(es, y, sources);
    SourceSumIsTotal(es, y, sources);
    SelfRatio(total);
  }

  lemma SelfRatio(t: real)
    requires t != 0.0
    ensures t / t == 1.0
  {
  }

  lemma {:induction false} GroupSumAtMost(es: seq<Entry>, y: real, s: string, sources: seq<string>)
    requires s in sources
    requires forall e | e in es :: e.value >= 0.0
    ensures GroupSum(es, y, s) <= SourceSum(es, y, sources)
  {
    if sources[0] != s {
      GroupSumAtMost(es, y, s, sources[1..]);
    } else {
      SourceSumNonNegative(es, y, sources[1..]);
    }
  }

  lemma {:induction false} SourceSumNonNegative(es: seq<Entry>, y: real, sources: seq<string>)
    requires forall e | e in es :: e.value >= 0.0
    ensures SourceSum(es, y, sources) >= 0.0
  {
    if |sources| > 0 {
      SourceSumNonNegative(es, y, sources[1..]);
    }
  }

  lemma RatioInUnit(g: real, t: real)
    requires 0.0 <= g <= t && t != 0.0
    ensures 0.0 <= g / t <= 1.0
  {
  }

  /** With non-negative generation, every share is a fraction in [0, 1]
      (the axis is formatted as a percentage). */
  lemma SharesAreFractions(es: seq<Entry>, sh: Share)
    requires forall e | e in es :: e.value >= 0.0
    requires sh in MixShares(es)
    ensures 0.0 <= sh.share <= 1.0
  {
    var sources := SourceNames(es);
    var e :| e in es && e.year == sh.year && e.source == sh.source;
    GroupSumAtMost(es, sh.year, sh.source, sources);
    SourceSumIsTotal(es, sh.year, sources);
    RatioInUnit(GroupSum(es, sh.year, sh.source), YearTotal(es, sh.year));
  }

  /** Some row of the slice has the share's year and source. */
  predicate SlicedSource(long: Table, country: string, lo: real, hi: real, sh: Share) {
    exists row :: row in long.rows && InSlice(long.columns, row, country, lo, hi) &&
      EntryOf(long.columns, row).Some? && EntryOf(long.columns, row).value.year == sh.year &&
      EntryOf(long.columns, row).value.source == sh.source
  }

  /** The entries of the rows of the selected country and years. */
  function SliceEntries(long: Table, country: string, lo: real, hi: real): seq<Entry> {
    Entries(long.columns, Filter(long.rows, (row: Row) => InSlice(long.columns, row, country, lo, hi)))
  }

  /** Lines 155-159 then 172-178: the mix of the selected country and years. */
  function ElectricityMix(long: Table, country: string, lo: real, hi: real): (r: Result<seq<Share>>)
    requires WellFormed(long)
    ensures r.Ok? <==> "country" in long.columns && "year" in long.columns && "source" in long.columns && "value" in long.columns
    ensures r.Ok? ==> forall sh | sh in r.value :: lo <= sh.year <= hi
    ensures r.Ok? ==> forall sh | sh in r.value :: SlicedSource(long, country, lo, hi, sh)
    ensures r.Ok? ==> r.value == MixShares(SliceEntries(long, country, lo, hi))
    ensures r.Ok? ==> forall y :: YearTotal(SliceEntries(long, country, lo, hi), y) != 0.0 ==> YearShare(r.value, y) == 1.0
  {
    var slice :- CountryYearFilter(long, country, lo, hi);
    var es :- MixEntries(slice);
    MixYearsInRange(long, country, lo, hi, slice, es);
    assert es == SliceEntries(long, country, lo, hi);
    forall y | YearTotal(es, y) != 0.0
      ensures YearShare(MixShares(es), y) == 1.0
    {
      SharesSumToOne(es, y);
    }
    Ok(MixShares(es))
  }

  lemma MixYearsInRange(long: Table, country: string, lo: real, hi: real, slice: Table, es: seq<Entry>)
    requires WellFormed(long) && CountryYearFilter(long, country, lo, hi) == Ok(slice)
    requires MixEntries(slice) == Ok(es)
    ensures forall sh | sh in MixShares(es) :: lo <= sh.year <= hi
    ensures forall sh | sh in MixShares(es) :: SlicedSource(long, country, lo, hi, sh)
  {
    forall sh | sh in MixShares(es)
      ensures lo <= sh.year <= hi
      ensures SlicedSource(long, country, lo, hi, sh)
    {
      var e :| e in es && e.year == sh.year && e.source == sh.source;
      var row :| row in slice.rows && EntryOf(slice.columns, row) == Some(e);
    }
  }
}
