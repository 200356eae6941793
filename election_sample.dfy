/** `generate_sample_data` (election_margins_app.py:11-59): 120 Republican
    counties, then 120 Democrat ones, each with margins clipped into its
    party's band. The random draws are an input, one `Draw` per county. */
module ElectionSample {

  datatype Party = Republican | Democrat

  /** One record of the generated frame. */
  datatype County = County(name: string, state: string, margin2020: real, margin2024: real,
                           totalVotes: int, party: Party)

  /** The five draws made for one county, in the order the loop makes them:
      `choice(states)` as an index, `uniform(...)`, two `normal(...)` and the
      raw value behind `randint(100, 80000)`. */
  datatype Draw = Draw(stateIndex: nat, base: real, noise2020: real, noise2024: real, votes: nat)

  const States: seq<string> := ["Texas", "California", "Florida", "Pennsylvania", "Ohio", "Georgia", "Michigan", "Arizona"]

  const CountiesPerParty: nat := 120

  const CountyCount: nat := 240

  /** The distance between two reals. */
  function Dist(a: real, b: real): real {
    if a < b then b - a else a - b
  }

  /** `np.clip(x, lo, hi)`: the point of `[lo, hi]` nearest to `x`. */
  function Clip(x: real, lo: real, hi: real): (r: real)
    requires lo <= hi
    ensures lo <= r <= hi
    ensures forall z :: lo <= z <= hi ==> Dist(r, x) <= Dist(z, x)
  {
    if x < lo then lo else if x > hi then hi else x
  }

  /** The band each party's margins are clipped into (lines 27-28, 47-48). */
  function BandLow(p: Party): real {
    match p
    case Republican => 1.0
    case Democrat => -95.0
  }

  function BandHigh(p: Party): real {
    match p
    case Republican => 95.0
    case Democrat => -1.0
  }

  predicate InBand(c: County) {
    BandLow(c.party) <= c.margin2020 <= BandHigh(c.party) &&
    BandLow(c.party) <= c.margin2024 <= BandHigh(c.party)
  }

  /** The label agrees with the sign of both margins: Republican counties are
      won by Republicans in both years, Democrat ones by Democrats. */
  predicate SignAgrees(c: County) {
    match c.party
    case Republican => c.margin2020 > 0.0 && c.margin2024 > 0.0
    case Democrat => c.margin2020 < 0.0 && c.margin2024 < 0.0
  }

  lemma BandGivesSign(c: County)
    requires InBand(c)
    ensures SignAgrees(c)
  {
  }

  /** `np.random.randint(100, 80000)`: the half-open range [100, 80000). */
  function Votes(raw: nat): (r: int)
    ensures 100 <= r < 80000
  {
    100 + raw % 79900
  }

  /** The character of one decimal digit. */
  function DigitChar(d: nat): char
    requires d < 10
  {
    (48 + d) as char
  }

  function DigitValue(c: char): int {
    c as int - 48
  }

  /** Python's `str(n)` for a natural number. */
  function Decimal(n: nat): (r: string)
    ensures |r| >= 1
    ensures n >= 10 ==> |r| >= 2
    decreases n
  {
    if n < 10 then [DigitChar(n)] else Decimal(n / 10) + [DigitChar(n % 10)]
  }

  /** Reading a string of decimal digits back as a number. */
  function Parse(s: string): int
    decreases |s|
  {
    if |s| == 0 then 0 else Parse(s[..|s| - 1]) * 10 + DigitValue(s[|s| - 1])
  }

  lemma {:induction false} ParseDecimal(n: nat)
    ensures Parse(Decimal(n)) == n
    decreases n
  {
    if n >= 10 {
      var s := Decimal(n);
      assert s[..|s| - 1] == Decimal(n / 10);
      ParseDecimal(n / 10);
    } else {
      assert Decimal(n)[..0] == [];
    }
  }

  lemma DecimalInjective(a: nat, b: nat)
    requires Decimal(a) == Decimal(b)
    ensures a == b
  {
    ParseDecimal(a);
    ParseDecimal(b);
  }

  /** `f"County {i+1}"`. */
  function CountyName(i: nat): (r: string)
    ensures |r| > 7 && r[..7] == "County " && r[7..] == Decimal(i + 1)
  {
    "County " + Decimal(i + 1)
  }

  lemma CountyNamesDistinct(i: nat, j: nat)
    requires i != j
    ensures CountyName(i) != CountyName(j)
  {
    if CountyName(i) == CountyName(j) {
      var prefix := "County ";
      assert Decimal(i + 1) == CountyName(i)[|prefix|..];
      assert Decimal(j + 1) == CountyName(j)[|prefix|..];
      DecimalInjective(i + 1, j + 1);
    }
  }

  /** The party of the county generated at position `i`. */
  function PartyAt(i: nat): (p: Party)
    ensures p == Republican <==> i < CountiesPerParty
    ensures p == Democrat <==> i >= CountiesPerParty
  {
    if i < CountiesPerParty then Republican else Democrat
  }

  /** The record the loop body builds for county `i` of party `p`. The
      margins are `base + noise` clipped into the party's band. */
  function MakeCounty(i: nat, d: Draw, p: Party): (c: County)
    ensures c.name == CountyName(i) && c.party == p && c.state in States
    ensures InBand(c)
    ensures 100 <= c.totalVotes < 80000
  {
    County(CountyName(i), States[d.stateIndex % |States|],
           Clip(d.base + d.noise2020, BandLow(p), BandHigh(p)),
           Clip(d.base + d.noise2024, BandLow(p), BandHigh(p)),
           Votes(d.votes), p)
  }

  /** Lines 17-59: the two loops append one record per county. */
  method GenerateSampleData(draws: seq<Draw>) returns (data: seq<County>)
    requires |draws| == CountyCount
    ensures |data| == CountyCount
    ensures forall i :: 0 <= i < CountyCount ==> data[i] == MakeCounty(i, draws[i], PartyAt(i))
    ensures forall i :: 0 <= i < CountyCount ==> data[i].party == PartyAt(i) && data[i].name == CountyName(i)
    ensures forall c | c in data :: InBand(c) && SignAgrees(c) && c.state in States && 100 <= c.totalVotes < 80000
    ensures forall i, j :: 0 <= i < j < CountyCount ==> data[i].name != data[j].name
  {
    data := [];
    for i := 0 to CountiesPerParty
      invariant |data| == i
      invariant forall k :: 0 <= k < i ==> data[k] == MakeCounty(k, draws[k], PartyAt(k))
    {
      var d := draws[i];
      var state := States[d.stateIndex % |States|];
      var margin2020 := Clip(d.base + d.noise2020, 1.0, 95.0);
      var margin2024 := Clip(d.base + d.noise2024, 1.0, 95.0);
      var county := County(CountyName(i), state, margin2020, margin2024, Votes(d.votes), Republican);
      assert county == MakeCounty(i, d, PartyAt(i));
      data := data + [county];
    }
    for i := CountiesPerParty to CountyCount
      invariant |data| == i
      invariant forall k :: 0 <= k < i ==> data[k] == MakeCounty(k, draws[k], PartyAt(k))
    {
      var d := draws[i];
      var state := States[d.stateIndex % |States|];
      var margin2020 := Clip(d.base + d.noise2020, -95.0, -1.0);
      var margin2024 := Clip(d.base + d.noise2024, -95.0, -1.0);
      var county := County(CountyName(i), state, margin2020, margin2024, Votes(d.votes), Democrat);
      assert county == MakeCounty(i, d, PartyAt(i));
      data := data + [county];
    }
    SampleFacts(draws, data);
  }

  /** What the generated records have in common, whatever the draws. */
  lemma SampleFacts(draws: seq<Draw>, data: seq<County>)
    requires |draws| == CountyCount && |data| == CountyCount
    requires forall i :: 0 <= i < CountyCount ==> data[i] == MakeCounty(i, draws[i], PartyAt(i))
    ensures forall i :: 0 <= i < CountyCount ==> data[i].party == PartyAt(i) && data[i].name == CountyName(i)
    ensures forall c | c in data :: InBand(c) && SignAgrees(c) && c.state in States && 100 <= c.totalVotes < 80000
    ensures forall i, j :: 0 <= i < j < CountyCount ==> data[i].name != data[j].name
  {
    forall c | c in data
      ensures InBand(c) && SignAgrees(c) && c.state in States && 100 <= c.totalVotes < 80000
    {
      var i :| 0 <= i < |data| && data[i] == c;
      BandGivesSign(c);
    }
    forall i, j | 0 <= i < j < CountyCount
      ensures data[i].name != data[j].name
    {
      CountyNamesDistinct(i, j);
    }
  }
}
