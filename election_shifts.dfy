/** The shift analysis of the election dashboard: the `change` column
    (election_margins_app.py:208) and the two top-5 tables (lines 213, 218). */
module ElectionShifts {
  import opened Sequences
  import opened ElectionSample

  /** A filtered county with its `change` column. */
  datatype ShiftRow = ShiftRow(county: County, change: real)

  /** Line 208: `change = margin_2024 - margin_2020` on every row; the county
      fields stay as they were. */
  function WithChange(rows: seq<County>): (r: seq<ShiftRow>)
    ensures |r| == |rows|
    ensures forall i :: 0 <= i < |rows| ==> r[i].county == rows[i]
    ensures forall i :: 0 <= i < |rows| ==> r[i].county.margin2020 + r[i].change == r[i].county.margin2024
  {
    Map(rows, (c: County) => ShiftRow(c, c.margin2024 - c.margin2020))
  }

  /** A county whose margins stay in its party's band moves by at most 94
      points, and a positive change means a move towards the Republicans. */
  lemma ChangeWithinBand(rows: seq<County>, i: nat)
    requires i < |rows| && InBand(rows[i])
    ensures -94.0 <= WithChange(rows)[i].change <= 94.0
    ensures WithChange(rows)[i].change > 0.0 <==> rows[i].margin2024 > rows[i].margin2020
  {
  }

  /** The `change` column. */
  function Changes(rows: seq<ShiftRow>): (r: seq<real>)
    ensures |r| == |rows|
    ensures forall i :: 0 <= i < |rows| ==> r[i] == rows[i].change
  {
    Map(rows, (row: ShiftRow) => row.change)
  }

  /** Index `i` is ranked ahead of index `j`: a larger key (a smaller one for
      `nsmallest`), or an equal key and an earlier row (`keep="first"`). */
  predicate Before(keys: seq<real>, i: nat, j: nat, largest: bool): (r: bool)
    requires i < |keys| && j < |keys|
    ensures r && largest ==> keys[i] >= keys[j]
    ensures r && !largest ==> keys[i] <= keys[j]
    ensures keys[i] == keys[j] ==> (r <==> i < j)
    ensures keys[i] != keys[j] ==> (r <==> if largest then keys[i] > keys[j] else keys[i] < keys[j])
  {
    if largest then keys[i] > keys[j] || (keys[i] == keys[j] && i < j)
    else keys[i] < keys[j] || (keys[i] == keys[j] && i < j)
  }

  lemma BeforeTotal(keys: seq<real>, i: nat, j: nat, largest: bool)
    requires i < |keys| && j < |keys| && i != j
    ensures Before(keys, i, j, largest) != Before(keys, j, i, largest)
  {
  }

  lemma BeforeTransitive(keys: seq<real>, i: nat, j: nat, k: nat, largest: bool)
    requires i < |keys| && j < |keys| && k < |keys|
    requires Before(keys, i, j, largest) && Before(keys, j, k, largest)
    ensures Before(keys, i, k, largest)
  {
  }

  predicate Indices(keys: seq<real>, s: seq<nat>) {
    forall k :: 0 <= k < |s| ==> s[k] < |keys|
  }

  /** The indices of `s` in ranking order. */
  predicate Ranked(keys: seq<real>, s: seq<nat>, largest: bool)
    requires Indices(keys, s)
  {
    forall a, b :: 0 <= a < b < |s| ==> Before(keys, s[a], s[b], largest)
  }

  /** `x` placed in front of the first index it is ranked ahead of. */
  function Insert(keys: seq<real>, x: nat, s: seq<nat>, largest: bool): (r: seq<nat>)
    requires x < |keys| && Indices(keys, s)
    ensures Indices(keys, r) && |r| == |s| + 1
    ensures multiset(r) == multiset(s) + multiset{x}
  {
    if |s| == 0 then [x]
    else if Before(keys, x, s[0], largest) then [x] + s
    else
      assert s == [s[0]] + s[1..];
      [s[0]] + Insert(keys, x, s[1..], largest)
  }

  /** Inserting a new index into a ranked list keeps it ranked. */
  lemma {:induction false} InsertKeepsRanked(keys: seq<real>, x: nat, s: seq<nat>, largest: bool)
    requires x < |keys| && Indices(keys, s)
    requires Ranked(keys, s, largest) && x !in s
    ensures Ranked(keys, Insert(keys, x, s, largest), largest)
  {
    var r := Insert(keys, x, s, largest);
    if |s| > 0 {
      if Before(keys, x, s[0], largest) {
        forall a, b | 0 <= a < b < |r| ensures Before(keys, r[a], r[b], largest) {
          if a == 0 && b > 1 {
            BeforeTransitive(keys, x, s[0], s[b - 1], largest);
          }
        }
      } else {
        var rest := Insert(keys, x, s[1..], largest);
        assert r == [s[0]] + rest;
        InsertKeepsRanked(keys, x, s[1..], largest);
        HeadAheadOfInsert(keys, x, s, largest);
        forall a, b | 0 <= a < b < |r| ensures Before(keys, r[a], r[b], largest) {
          if a > 0 {
            assert r[a] == rest[a - 1] && r[b] == rest[b - 1];
          } else {
            assert r[b] == rest[b - 1];
          }
        }
      }
    }
  }

  /** When `x` goes behind the head, the head is ranked ahead of all the rest. */
  lemma HeadAheadOfInsert(keys: seq<real>, x: nat, s: seq<nat>, largest: bool)
    requires x < |keys| && Indices(keys, s) && |s| > 0
    requires Ranked(keys, s, largest) && x !in s && !Before(keys, x, s[0], largest)
    ensures forall k :: 0 <= k < |s| ==>
      k < |Insert(keys, x, s[1..], largest)| && Before(keys, s[0], Insert(keys, x, s[1..], largest)[k], largest)
  {
    var tail := s[1..];
    var rest := Insert(keys, x, tail, largest);
    BeforeTotal(keys, x, s[0], largest);
    forall k | 0 <= k < |rest| ensures Before(keys, s[0], rest[k], largest) {
      assert rest[k] in multiset(rest);
      if rest[k] != x {
        assert rest[k] in multiset(tail);
        var a :| 0 <= a < |tail| && tail[a] == rest[k];
        assert s[a + 1] == rest[k];
      }
    }
  }

  /** Insertion sort of `s` by the ranking. */
  function Rank(keys: seq<real>, s: seq<nat>, largest: bool): (r: seq<nat>)
    requires Indices(keys, s)
    ensures Indices(keys, r) && |r| == |s|
    ensures multiset(r) == multiset(s)
  {
    if |s| == 0 then []
    else
      assert s == [s[0]] + s[1..];
      Insert(keys, s[0], Rank(keys, s[1..], largest), largest)
  }

  /** Sorting indices without repetitions puts them in ranking order. */
  lemma {:induction false} RankSorts(keys: seq<real>, s: seq<nat>, largest: bool)
    requires Indices(keys, s)
    requires forall a, b :: 0 <= a < b < |s| ==> s[a] != s[b]
    ensures Ranked(keys, Rank(keys, s, largest), largest)
  {
    if |s| > 0 {
      var tail := s[1..];
      assert forall a, b :: 0 <= a < b < |tail| ==> tail[a] != tail[b] by {
        forall a, b | 0 <= a < b < |tail| ensures tail[a] != tail[b] {
          assert tail[a] == s[a + 1] && tail[b] == s[b + 1];
        }
      }
      RankSorts(keys, tail, largest);
      var rest := Rank(keys, tail, largest);
      assert s[0] !in rest by {
        assert forall a | 0 <= a < |tail| :: tail[a] == s[a + 1];
        assert s[0] !in tail;
        assert s[0] !in multiset(tail);
        assert s[0] !in multiset(rest);
      }
      InsertKeepsRanked(keys, s[0], rest, largest);
    }
  }

  /** The smaller of two counts. */
  function Min(a: nat, b: nat): nat {
    if a < b then a else b
  }

  /** The indices of the first `n` rows in ranking order: `nlargest(n)` or
      `nsmallest(n)` with `keep="first"`. */
  function TopIndices(keys: seq<real>, n: nat, largest: bool): (r: seq<nat>)
    ensures Indices(keys, r) && |r| == Min(n, |keys|)
    ensures Ranked(keys, r, largest)
    ensures forall a, b :: 0 <= a < b < |r| ==> r[a] != r[b]
  {
    var all := seq(|keys|, (i: int) requires 0 <= i < |keys| => i as nat);
    var ranked := Rank(keys, all, largest);
    RankSorts(keys, all, largest);
    RankedDistinct(keys, ranked, largest);
    ranked[..Min(n, |keys|)]
  }

  /** Ranked indices are distinct, since `Before` is irreflexive. */
  lemma RankedDistinct(keys: seq<real>, s: seq<nat>, largest: bool)
    requires Indices(keys, s) && Ranked(keys, s, largest)
    ensures forall a, b :: 0 <= a < b < |s| ==> s[a] != s[b]
  {
  }

  /** Every chosen row is ranked ahead of every row left out: it has a larger
      change (a smaller one for `nsmallest`), or the same change and comes
      first. */
  lemma TopIsBest(keys: seq<real>, n: nat, largest: bool, c: nat, u: nat)
    requires c in TopIndices(keys, n, largest)
    requires u < |keys| && u !in TopIndices(keys, n, largest)
    ensures c < |keys| && Before(keys, c, u, largest)
  {
    var all := seq(|keys|, (i: int) requires 0 <= i < |keys| => i as nat);
    var ranked := Rank(keys, all, largest);
    RankSorts(keys, all, largest);
    var m := Min(n, |keys|);
    var top := ranked[..m];
    assert TopIndices(keys, n, largest) == top;
    assert all[u] == u;
    assert u in multiset(ranked);
    var q :| 0 <= q < |ranked| && ranked[q] == u;
    var p :| 0 <= p < m && top[p] == c;
    assert forall k | 0 <= k < m :: ranked[k] == top[k] && top[k] in top;
    assert q >= m;
  }

  /** The columns the two tables show (lines 213, 218). */
  datatype TopRow = TopRow(county: string, state: string, margin2020: real, margin2024: real, change: real)

  function Project(row: ShiftRow): (r: TopRow)
    ensures r.county == row.county.name && r.state == row.county.state
    ensures r.margin2020 == row.county.margin2020 && r.margin2024 == row.county.margin2024
    ensures r.change == row.change
  {
    TopRow(row.county.name, row.county.state, row.county.margin2020, row.county.margin2024, row.change)
  }

  /** The positions of the rows a top table shows. */
  function Chosen(rows: seq<ShiftRow>, n: nat, largest: bool): (r: seq<nat>)
    ensures |r| == Min(n, |rows|)
    ensures forall k :: 0 <= k < |r| ==> r[k] < |rows|
    ensures forall a, b :: 0 <= a < b < |r| ==> r[a] != r[b]
  {
    TopIndices(Changes(rows), n, largest)
  }

  /** Line 213 (`largest`) and line 218: the `n` rows of most extreme change,
      most extreme first. */
  function MostShifted(rows: seq<ShiftRow>, n: nat, largest: bool): (r: seq<TopRow>)
    ensures |r| == Min(n, |rows|)
    ensures forall k :: 0 <= k < |r| ==> r[k] == Project(rows[Chosen(rows, n, largest)[k]])
    ensures largest ==> forall a, b :: 0 <= a < b < |r| ==> r[a].change >= r[b].change
    ensures !largest ==> forall a, b :: 0 <= a < b < |r| ==> r[a].change <= r[b].change
    ensures forall a, b :: 0 <= a < b < |r| && r[a].change == r[b].change ==>
      Chosen(rows, n, largest)[a] < Chosen(rows, n, largest)[b]
  {
    var top := Chosen(rows, n, largest);
    var r := seq(|top|, (k: int) requires 0 <= k < |top| => Project(rows[top[k]]));
    assert forall a, b :: 0 <= a < b < |r| ==> Before(Changes(rows), top[a], top[b], largest);
    r
  }

  /** A row left out of a top table never beats a row shown in it, and on a
      tie the row shown comes first in the filtered frame. */
  lemma MostShiftedIsBest(rows: seq<ShiftRow>, n: nat, largest: bool, k: nat, u: nat)
    requires k < Min(n, |rows|) && u < |rows| && u !in Chosen(rows, n, largest)
    ensures largest ==> MostShifted(rows, n, largest)[k].change >= rows[u].change
    ensures !largest ==> MostShifted(rows, n, largest)[k].change <= rows[u].change
    ensures MostShifted(rows, n, largest)[k].change == rows[u].change ==> Chosen(rows, n, largest)[k] < u
  {
    var c := Chosen(rows, n, largest)[k];
    TopIsBest(Changes(rows), n, largest, c, u);
  }

  /** Line 213: the five counties that moved most towards the Republicans,
      ties going to the earlier row. */
  function MostRepublicanShift(rows: seq<ShiftRow>): (r: seq<TopRow>)
    ensures |r| == Min(5, |rows|)
    ensures forall a, b :: 0 <= a < b < |r| ==> r[a].change >= r[b].change
    ensures forall a, b :: 0 <= a < b < |r| && r[a].change == r[b].change ==>
      Chosen(rows, 5, true)[a] < Chosen(rows, 5, true)[b]
    ensures forall k :: 0 <= k < |r| ==> r[k] == Project(rows[Chosen(rows, 5, true)[k]])
    ensures forall k, u :: 0 <= k < |r| && 0 <= u < |rows| && u !in Chosen(rows, 5, true) ==>
      r[k].change >= rows[u].change && (r[k].change == rows[u].change ==> Chosen(rows, 5, true)[k] < u)
  {
    assert forall k, u :: 0 <= k < Min(5, |rows|) && 0 <= u < |rows| && u !in Chosen(rows, 5, true) ==>
      MostShifted(rows, 5, true)[k].change >= rows[u].change &&
      (MostShifted(rows, 5, true)[k].change == rows[u].change ==> Chosen(rows, 5, true)[k] < u) by {
      forall k, u | 0 <= k < Min(5, |rows|) && 0 <= u < |rows| && u !in Chosen(rows, 5, true)
        ensures MostShifted(rows, 5, true)[k].change >= rows[u].change
        ensures MostShifted(rows, 5, true)[k].change == rows[u].change ==> Chosen(rows, 5, true)[k] < u
      {
        MostShiftedIsBest(rows, 5, true, k, u);
      }
    }
    MostShifted(rows, 5, true)
  }

  /** Line 218: the five counties that moved most towards the Democrats,
      ties going to the earlier row. */
  function MostDemocratShift(rows: seq<ShiftRow>): (r: seq<TopRow>)
    ensures |r| == Min(5, |rows|)
    ensures forall a, b :: 0 <= a < b < |r| ==> r[a].change <= r[b].change
    ensures forall a, b :: 0 <= a < b < |r| && r[a].change == r[b].change ==>
      Chosen(rows, 5, false)[a] < Chosen(rows, 5, false)[b]
    ensures forall k :: 0 <= k < |r| ==> r[k] == Project(rows[Chosen(rows, 5, false)[k]])
    ensures forall k, u :: 0 <= k < |r| && 0 <= u < |rows| && u !in Chosen(rows, 5, false) ==>
      r[k].change <= rows[u].change && (r[k].change == rows[u].change ==> Chosen(rows, 5, false)[k] < u)
  {
    assert forall k, u :: 0 <= k < Min(5, |rows|) && 0 <= u < |rows| && u !in Chosen(rows, 5, false) ==>
      MostShifted(rows, 5, false)[k].change <= rows[u].change &&
      (MostShifted(rows, 5, false)[k].change == rows[u].change ==> Chosen(rows, 5, false)[k] < u) by {
      forall k, u | 0 <= k < Min(5, |rows|) && 0 <= u < |rows| && u !in Chosen(rows, 5, false)
        ensures MostShifted(rows, 5, false)[k].change <= rows[u].change
        ensures MostShifted(rows, 5, false)[k].change == rows[u].change ==> Chosen(rows, 5, false)[k] < u
      {
        MostShiftedIsBest(rows, 5, false, k, u);
      }
    }
    MostShifted(rows, 5, false)
  }
}
