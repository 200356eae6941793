/** The sidebar filters of the election dashboard (election_margins_app.py:
    68-86) and the county counts shown under the chart (lines 203-205). */
module ElectionFilters {
  import opened Sequences
  import opened ElectionSample

  /** The first entry of the state list, which disables the state filter. */
  const AllStates: string := "All"

  /** Lines 78-79: the parties whose checkbox is ticked. */
  function PartyFilter(showRepublican: bool, showDemocrat: bool): (r: set<Party>)
    ensures Republican in r <==> showRepublican
    ensures Democrat in r <==> showDemocrat
  {
    (if showRepublican then {Republican} else {}) + (if showDemocrat then {Democrat} else {})
  }

  /** The three conditions of lines 83-86 together. */
  predicate Survives(c: County, selectedState: string, minVotes: int, parties: set<Party>): (r: bool)
    ensures r ==> c.totalVotes >= minVotes && c.party in parties
    ensures selectedState == AllStates ==> (r <==> c.totalVotes >= minVotes && c.party in parties)
    ensures selectedState != AllStates ==> (r <==> c.state == selectedState && c.totalVotes >= minVotes && c.party in parties)
  {
    (selectedState == AllStates || c.state == selectedState) && c.totalVotes >= minVotes && c.party in parties
  }

  /** The filtered counties: the survivors, in their original order. */
  function Filtered(df: seq<County>, selectedState: string, minVotes: int, parties: set<Party>): (r: seq<County>)
    ensures IsSubsequence(r, df)
    ensures r == Filter(df, (c: County) => Survives(c, selectedState, minVotes, parties))
    ensures forall c :: c in r <==>
      c in df && (selectedState == AllStates || c.state == selectedState) && c.totalVotes >= minVotes && c.party in parties
  {
    Filter(df, (c: County) => Survives(c, selectedState, minVotes, parties))
  }

  /** Lines 82-86 with `party_filter` read as the ticked parties: the copy is
      narrowed one mask at a time. `df` itself is a value and stays as it is. */
  method ApplyFilters(df: seq<County>, selectedState: string, minVotes: int,
                      showRepublican: bool, showDemocrat: bool) returns (filteredDf: seq<County>)
    ensures filteredDf == Filtered(df, selectedState, minVotes, PartyFilter(showRepublican, showDemocrat))
  {
    var partyFilter := PartyFilter(showRepublican, showDemocrat);
    var inState := (c: County) => selectedState == AllStates || c.state == selectedState;
    var enoughVotes := (c: County) => c.totalVotes >= minVotes;
    var inParty := (c: County) => c.party in partyFilter;
    var stateAndVotes := (c: County) => inState(c) && enoughVotes(c);
    filteredDf := df;
    if selectedState != AllStates {
      filteredDf := Filter(filteredDf, (c: County) => c.state == selectedState);
      FilterFusion(df, (c: County) => c.state == selectedState, enoughVotes, stateAndVotes);
    } else {
      FilterExtensional(df, enoughVotes, stateAndVotes);
    }
    filteredDf := Filter(filteredDf, enoughVotes);
    assert filteredDf == Filter(df, stateAndVotes);
    filteredDf := Filter(filteredDf, inParty);
    FilterFusion(df, stateAndVotes, inParty, (c: County) => Survives(c, selectedState, minVotes, partyFilter));
  }

  /** With "All", a threshold of 0 and both boxes ticked nothing is removed. */
  lemma DefaultFiltersKeepAll(df: seq<County>)
    requires forall c | c in df :: c.totalVotes >= 0
    ensures Filtered(df, AllStates, 0, PartyFilter(true, true)) == df
  {
    forall c | c in df
      ensures Survives(c, AllStates, 0, PartyFilter(true, true))
    {
      assert c.party == Republican || c.party == Democrat;
    }
    FilterKeepsAll(df, (c: County) => Survives(c, AllStates, 0, PartyFilter(true, true)));
  }

  /** Lines 203-205: the counties of one party. */
  function PartyCount(rows: seq<County>, p: Party): (r: nat)
    ensures r <= |rows|
    ensures r == 0 <==> forall c | c in rows :: c.party != p
  {
    var members := Filter(rows, (c: County) => c.party == p);
    assert |members| > 0 ==> members[0] in members;
    |members|
  }

  /** The two party metrics add up to the total. */
  lemma CountsAddUp(rows: seq<County>)
    ensures PartyCount(rows, Republican) + PartyCount(rows, Democrat) == |rows|
  {
    FilterPartition(rows, (c: County) => c.party == Republican, (c: County) => c.party == Democrat);
  }

  /** An unticked party has no county in the result. */
  lemma HiddenPartyCountsZero(df: seq<County>, selectedState: string, minVotes: int,
                              showRepublican: bool, showDemocrat: bool)
    ensures !showRepublican ==> PartyCount(Filtered(df, selectedState, minVotes, PartyFilter(showRepublican, showDemocrat)), Republican) == 0
    ensures !showDemocrat ==> PartyCount(Filtered(df, selectedState, minVotes, PartyFilter(showRepublican, showDemocrat)), Democrat) == 0
  {
  }

  /** The outcome of running lines 82-86 as the script is written. */
  datatype Outcome = Completed(rows: seq<County>) | NameError(name: string)

  /** The party sets the script has bound when line 86 runs: none. */
  const ScriptPartySets: map<string, set<Party>> := map[]

  /** Lines 82-86 as written: line 86 looks up the name `party_filter`. */
  function FilterChainAsWritten(df: seq<County>, selectedState: string, minVotes: int,
                                bound: map<string, set<Party>>): (r: Outcome)
    ensures "party_filter" !in bound ==> r == NameError("party_filter")
    ensures "party_filter" in bound ==> r == Completed(Filtered(df, selectedState, minVotes, bound["party_filter"]))
  {
    var byState := if selectedState != AllStates then Filter(df, (c: County) => c.state == selectedState) else df;
    var byVotes := Filter(byState, (c: County) => c.totalVotes >= minVotes);
    if "party_filter" in bound then
      var parties := bound["party_filter"];
      FilterChainAgrees(df, selectedState, minVotes, parties, byState, byVotes);
      Completed(Filter(byVotes, (c: County) => c.party in parties))
    else NameError("party_filter")
  }

  lemma FilterChainAgrees(df: seq<County>, selectedState: string, minVotes: int, parties: set<Party>,
                          byState: seq<County>, byVotes: seq<County>)
    requires byState == if selectedState != AllStates then Filter(df, (c: County) => c.state == selectedState) else df
    requires byVotes == Filter(byState, (c: County) => c.totalVotes >= minVotes)
    ensures Filter(byVotes, (c: County) => c.party in parties) == Filtered(df, selectedState, minVotes, parties)
  {
    var stateAndVotes := (c: County) => (selectedState == AllStates || c.state == selectedState) && c.totalVotes >= minVotes;
    if selectedState != AllStates {
      FilterFusion(df, (c: County) => c.state == selectedState, (c: County) => c.totalVotes >= minVotes, stateAndVotes);
    } else {
      FilterExtensional(df, (c: County) => c.totalVotes >= minVotes, stateAndVotes);
    }
    FilterFusion(df, stateAndVotes, (c: County) => c.party in parties, (c: County) => Survives(c, selectedState, minVotes, parties));
  }

  /** As written, the filter chain raises `NameError` whatever the sidebar
      says, even on the generated sample. */
  lemma AsWrittenRaises(df: seq<County>, selectedState: string, minVotes: int)
    ensures FilterChainAsWritten(df, selectedState, minVotes, ScriptPartySets) == NameError("party_filter")
    ensures FilterChainAsWritten(df, selectedState, minVotes, map["party_filter" := PartyFilter(true, true)]).Completed?
  {
  }
}
