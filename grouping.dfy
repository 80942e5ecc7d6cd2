/** The dashboard's filters and its per-adset and per-ad tables (src/components/Dashboard.tsx):
    `filteredData`, `adsetPerformance`, `incomeDistribution`, `adsetIncomeData`, the adset quality
    table, `getAdsetSalesData`, `getAllAdsData` and `getAdsByAdsetDrillDown`. */
module Grouping {
  import opened Common
  import opened Text
  import opened Seqs
  import opened Sorting
  import opened Columns
  import opened Amounts
  import opened AmountFacts
  import opened Income
  import opened Dates
  import opened Funnel

  // ----- Columns -----

  const PlatformCol: seq<string> := ["platform", "Platform", "plataforma", "Plataforma"]
  const IncomeCol: seq<string> := ["qual_sua_renda_mensal?", "qual_sua_renda_mensal", "renda", "Renda", "income"]
  const AdsetCol: seq<string> := ["adset_name", "adset", "Adset", "conjunto", "AdsetName"]
  const AdCol: seq<string> := ["ad_name", "ad", "Ad", "anuncio", "anúncio", "AdName"]
  const CreatedCol: seq<string> := ["created_time"]

  function PlatformOf(row: Row): string { ColumnValue(row, PlatformCol) }
  function IncomeOf(row: Row): string { ColumnValue(row, IncomeCol) }
  function AdsetOf(row: Row): string { ColumnValue(row, AdsetCol) }
  function AdOf(row: Row): string { ColumnValue(row, AdCol) }
  function CreatedOf(row: Row): string { ColumnValue(row, CreatedCol) }

  // ----- filteredData -----

  /** The filter bar: each field is `all` or the value a row must have. */
  datatype Filters = Filters(platform: string, incomeRange: string, adset: string, ad: string, month: string)

  const NoFilter: string := "all"

  /** `filters.month`: the row's `created_time` parses and falls in that month; a row whose date
      does not parse is dropped. */
  predicate InMonth(parse: DateParser, row: Row, month: string) {
    match parse(CreatedOf(row))
    case None => false
    case Some(d) => MonthKey(d) == month
  }

  predicate Passes(f: Filters, parse: DateParser, row: Row) {
    (f.platform == NoFilter || PlatformOf(row) == f.platform)
    && (f.incomeRange == NoFilter || IncomeOf(row) == f.incomeRange)
    && (f.adset == NoFilter || AdsetOf(row) == f.adset)
    && (f.ad == NoFilter || AdOf(row) == f.ad)
    && (f.month == NoFilter || InMonth(parse, row, f.month))
  }

  /** `filteredData`: the rows that pass every filter, in file order. */
  function FilteredData(rows: seq<Row>, f: Filters, parse: DateParser): (out: seq<Row>)
    ensures IsSubsequence(out, rows)
    ensures forall r :: r in out <==> r in rows && Passes(f, parse, r)
  {
    var p := (r: Row) => Passes(f, parse, r);
    FilterSubsequence(rows, p);
    forall r | r in rows && p(r) ensures r in Filter(rows, p) {
      FilterKeeps(rows, p, r);
    }
    Filter(rows, p)
  }

  /** Filtering on nothing keeps every row. */
  lemma {:induction false} FilterNothing(rows: seq<Row>, parse: DateParser)
    ensures FilteredData(rows, Filters(NoFilter, NoFilter, NoFilter, NoFilter, NoFilter), parse) == rows
  {
    var f := Filters(NoFilter, NoFilter, NoFilter, NoFilter, NoFilter);
    var p := (r: Row) => Passes(f, parse, r);
    KeepAll(rows, p);
  }

  lemma {:induction false} KeepAll(rows: seq<Row>, p: Row -> bool)
    requires forall r :: p(r)
    ensures Filter(rows, p) == rows
  {
    if |rows| > 0 {
      KeepAll(rows[1..], p);
    }
  }

  // ----- The adsets -----

  predicate HasAdset(row: Row) {
    AdsetOf(row) != ""
  }

  /** `Array.from(new Set(rows.map(adset).filter(Boolean)))`: the non-empty adset names, each once,
      in order of first appearance. */
  function Adsets(rows: seq<Row>): (names: seq<string>)
    ensures NoDuplicates(names)
    ensures forall r :: r in rows && HasAdset(r) ==> AdsetOf(r) in names
    ensures forall a :: a in names ==> a != "" && exists r :: r in rows && AdsetOf(r) == a
  {
    KeysOfSpec(rows, HasAdset, AdsetOf);
    KeysOf(rows, HasAdset, AdsetOf)
  }

  /** `rows.filter(r => adset(r) === a)`. */
  function LeadsOf(rows: seq<Row>, a: string): seq<Row> {
    WithKey(rows, AdsetOf, a)
  }

  /** Every adset of the list has at least one lead. */
  lemma AdsetHasLeads(rows: seq<Row>, a: string)
    requires a in Adsets(rows)
    ensures |LeadsOf(rows, a)| > 0
  {
    var r :| r in rows && AdsetOf(r) == a;
    WithKeyKeeps(rows, AdsetOf, a, r);
  }

  /** The adset groups partition the rows that have an adset. */
  lemma AdsetGroupsPartition(rows: seq<Row>)
    ensures GroupSizes(rows, AdsetOf, Adsets(rows)) == |Filter(rows, HasAdset)|
  {
    var names := Adsets(rows);
    GroupsPartition(rows, AdsetOf, names);
    forall i | 0 <= i < |rows| ensures HasAdset(rows[i]) <==> AdsetOf(rows[i]) in names {
      assert rows[i] in rows;
    }
    CountInFilter(rows, AdsetOf, names, HasAdset);
  }

  /** The total over an adset table of a field that counts each adset's leads is the number of
      rows that have an adset. */
  lemma AdsetTotal<E>(rows: seq<Row>, entry: string -> E, f: E -> nat, le: (E, E) -> bool)
    requires forall a :: f(entry(a)) == |LeadsOf(rows, a)|
    ensures SumNat(Sort(Map(Adsets(rows), entry), le), f) == |Filter(rows, HasAdset)|
  {
    AdsetCountTotal(rows, rows, entry, f, le);
  }

  /** The same for a field that counts each adset's leads among some of the rows (those with a
      sale, say): it adds up to those rows that have an adset. */
  lemma AdsetCountTotal<E>(rows: seq<Row>, sub: seq<Row>, entry: string -> E, f: E -> nat, le: (E, E) -> bool)
    requires forall i :: 0 <= i < |sub| ==> sub[i] in rows
    requires forall a :: f(entry(a)) == |WithKey(sub, AdsetOf, a)|
    ensures SumNat(Sort(Map(Adsets(rows), entry), le), f) == |Filter(sub, HasAdset)|
  {
    var names := Adsets(rows);
    var raw := Map(names, entry);
    SortSumNat(raw, le, f);
    SumNatGroups(sub, AdsetOf, names, raw, f);
    GroupsPartition(sub, AdsetOf, names);
    CountInFilter(sub, AdsetOf, names, HasAdset);
  }

  // ----- adsetPerformance -----

  datatype AdsetLeads = AdsetLeads(name: string, leads: nat)

  /** The comparator `(x, y) => y.leads - x.leads`: more leads first. */
  predicate MoreLeads(x: AdsetLeads, y: AdsetLeads) {
    x.leads >= y.leads
  }

  function AdsetLeadsOf(rows: seq<Row>): string -> AdsetLeads {
    a => AdsetLeads(a, |LeadsOf(rows, a)|)
  }

  /** `adsetPerformance`: each adset with its number of leads, most leads first (the sort is
      stable, so adsets with as many leads keep their order of first appearance). */
  function AdsetPerformance(rows: seq<Row>): seq<AdsetLeads> {
    Sort(Map(Adsets(rows), AdsetLeadsOf(rows)), MoreLeads)
  }

  function LeadsField(e: AdsetLeads): nat { e.leads }
  function NameField(e: AdsetLeads): string { e.name }

  /** The adset table is ordered by leads, lists each adset once with its true number of leads,
      and its lead counts add up to the rows that have an adset. */
  lemma AdsetPerformanceSpec(rows: seq<Row>)
    ensures Sorted(AdsetPerformance(rows), MoreLeads)
    ensures DistinctKeys(AdsetPerformance(rows), NameField)
    ensures forall e :: e in AdsetPerformance(rows) ==>
              e.name in Adsets(rows) && e.leads == |LeadsOf(rows, e.name)| && e.leads > 0
    ensures forall a :: a in Adsets(rows) ==> AdsetLeadsOf(rows)(a) in AdsetPerformance(rows)
    ensures SumNat(AdsetPerformance(rows), LeadsField) == |Filter(rows, HasAdset)|
  {
    assert TotalPreorder(MoreLeads);
    RankedTable(Adsets(rows), AdsetLeadsOf(rows), NameField, MoreLeads);
    forall e | e in AdsetPerformance(rows) ensures e.leads > 0 {
      AdsetHasLeads(rows, e.name);
    }
    AdsetTotal(rows, AdsetLeadsOf(rows), LeadsField, MoreLeads);
  }

  // ----- incomeDistribution -----

  /** The labels of `incomeLabels`, in the order of `Bands`. */
  const IncomeLabels: seq<string> := [
    "Menos de R$ 3.000",
    "R$ 3.000 - R$ 5.999",
    "R$ 6.000 - R$ 9.999",
    "R$ 10.000 - R$ 14.999",
    "R$ 15.000 - R$ 19.999",
    "R$ 20.000 - R$ 29.999",
    "Acima de R$ 30.000"
  ]

  datatype Slice = Slice(name: string, value: nat)

  function SliceValue(s: Slice): nat { s.value }

  predicate NonEmptySlice(s: Slice) { s.value > 0 }

  /** The number of rows in band `i`. */
  function BandCount(rows: seq<Row>, i: nat): nat
    requires i < |Bands|
  {
    |WithKey(rows, IncomeOf, Bands[i])|
  }

  /** One slice per band, in band order, before the empty ones are dropped. */
  function BandSlices(rows: seq<Row>): (s: seq<Slice>)
    ensures |s| == |Bands|
  {
    seq(|Bands|, i requires 0 <= i < |Bands| => Slice(IncomeLabels[i], BandCount(rows, i)))
  }

  /** `incomeDistribution`: for each band in order, its label and number of rows; bands with no
      rows are left out. */
  function IncomeDistribution(rows: seq<Row>): seq<Slice> {
    Filter(BandSlices(rows), NonEmptySlice)
  }

  predicate HasBand(row: Row) {
    IncomeOf(row) in Bands
  }

  /** Counts per band, one for each of the seven bands in order, add up to the rows whose income
      is a band. */
  lemma BandTotal<E>(rows: seq<Row>, slices: seq<E>, f: E -> nat)
    requires |slices| == |Bands|
    requires forall i :: 0 <= i < |Bands| ==> f(slices[i]) == BandCount(rows, i)
    ensures SumNat(slices, f) == |Filter(rows, HasBand)|
  {
    SumNatGroups(rows, IncomeOf, Bands, slices, f);
    BandsDistinct();
    GroupsPartition(rows, IncomeOf, Bands);
    CountInFilter(rows, IncomeOf, Bands, HasBand);
  }

  /** At most seven slices, each a band label with rows. */
  lemma IncomeDistributionShape(rows: seq<Row>)
    ensures |IncomeDistribution(rows)| <= 7
    ensures forall s :: s in IncomeDistribution(rows) ==> s.value > 0 && s.name in IncomeLabels
  {
    var slices := BandSlices(rows);
    forall s | s in IncomeDistribution(rows) ensures s.name in IncomeLabels {
      var i :| 0 <= i < |slices| && slices[i] == s;
    }
  }

  /** The slices add up to the rows whose income is one of the seven bands. */
  lemma IncomeDistributionTotal(rows: seq<Row>)
    ensures SumNat(IncomeDistribution(rows), SliceValue) == |Filter(rows, HasBand)|
  {
    var slices := BandSlices(rows);
    SumNatFilter(slices, NonEmptySlice, SliceValue);
    BandTotal(rows, slices, SliceValue);
  }

  // ----- Income scores of a group of leads -----

  function ScoreOf(row: Row): (r: real)
    ensures 0.0 <= r <= 7.0
  {
    IncomeScore(IncomeOf(row)) as real
  }

  /** `total > 0 ? leads.reduce((s, r) => s + getIncomeScore(income(r)), 0) / total : 0`. */
  function AvgScore(leads: seq<Row>): real {
    GuardedDiv(Sum(leads, ScoreOf), |leads| as real)
  }

  lemma ScoreSumBounds(leads: seq<Row>)
    ensures 0.0 <= Sum(leads, ScoreOf) <= 7.0 * |leads| as real
  {
    var f := ScoreOf;
    forall i | 0 <= i < |leads| ensures 0.0 <= f(leads[i]) <= 7.0 {
      assert f(leads[i]) == ScoreOf(leads[i]);
    }
    SumNonNegative(leads, f);
    SumAtMost(leads, f, 7.0);
  }

  lemma MeanScoreBounds(n: real, count: nat)
    requires 0.0 <= n <= 7.0 * count as real
    ensures 0.0 <= GuardedDiv(n, count as real) <= 7.0
  {
    MeanBounds(n, count, 7.0);
  }

  /** The average score lies between 0 and 7, the least and greatest scores. */
  lemma AvgScoreBounds(leads: seq<Row>)
    ensures 0.0 <= AvgScore(leads) <= 7.0
  {
    ScoreSumBounds(leads);
    MeanScoreBounds(Sum(leads, ScoreOf), |leads|);
  }

  lemma {:induction false} UnbandedScoreSum(leads: seq<Row>)
    requires forall i :: 0 <= i < |leads| ==> !HasBand(leads[i])
    ensures Sum(leads, ScoreOf) == 0.0
  {
    if |leads| > 0 {
      UnbandedScoreSum(leads[1..]);
    }
  }

  /** Leads none of whose incomes is a band average 0. */
  lemma AvgScoreUnbanded(leads: seq<Row>)
    requires forall i :: 0 <= i < |leads| ==> !HasBand(leads[i])
    ensures AvgScore(leads) == 0.0
  {
    UnbandedScoreSum(leads);
    NothingDivided(Sum(leads, ScoreOf), |leads| as real);
  }

  // ----- adsetIncomeData -----

  datatype BandShare = BandShare(income: string, count: nat, percentage: real)

  function ShareCount(s: BandShare): nat { s.count }

  predicate NonEmptyShare(s: BandShare) { s.count > 0 }

  /** Each band's label, count among `leads` and percentage of them, in band order. */
  function AllBandShares(leads: seq<Row>): (s: seq<BandShare>)
    ensures |s| == |Bands|
  {
    seq(|Bands|, i requires 0 <= i < |Bands| =>
      BandShare(IncomeLabels[i], BandCount(leads, i), GuardedPercent(BandCount(leads, i) as real, |leads| as real)))
  }

  /** The `distribution` of an adset: the bands its leads fall in. */
  function BandShares(leads: seq<Row>): seq<BandShare> {
    Filter(AllBandShares(leads), NonEmptyShare)
  }

  /** The share of band `i`: its label, and the band's leads as a percentage of all of them. */
  lemma BandShareAt(leads: seq<Row>, i: nat)
    requires i < |Bands|
    ensures AllBandShares(leads)[i].income == IncomeLabels[i]
    ensures 0.0 <= AllBandShares(leads)[i].percentage <= 100.0
  {
    PercentOfCount(BandCount(leads, i), |leads|);
  }

  /** Each share is a band with leads, with their percentage of all the leads. */
  lemma BandSharesShape(leads: seq<Row>)
    ensures forall s :: s in BandShares(leads) ==>
              s.count > 0 && s.income in IncomeLabels && 0.0 <= s.percentage <= 100.0
  {
    var all := AllBandShares(leads);
    forall s | s in BandShares(leads) ensures s.income in IncomeLabels && 0.0 <= s.percentage <= 100.0 {
      var i :| 0 <= i < |all| && all[i] == s;
      BandShareAt(leads, i);
    }
  }

  /** The shares' counts add up to the leads whose income is a band. */
  lemma BandSharesTotal(leads: seq<Row>)
    ensures SumNat(BandShares(leads), ShareCount) == |Filter(leads, HasBand)| <= |leads|
  {
    var all := AllBandShares(leads);
    SumNatFilter(all, NonEmptyShare, ShareCount);
    BandTotal(leads, all, ShareCount);
  }

  datatype AdsetIncome = AdsetIncome(adset: string, totalLeads: nat, distribution: seq<BandShare>, avgScore: real)

  function AdsetIncomeOf(rows: seq<Row>): string -> AdsetIncome {
    a => AdsetIncome(a, |LeadsOf(rows, a)|, BandShares(LeadsOf(rows, a)), AvgScore(LeadsOf(rows, a)))
  }

  /** `(a, b) => b.qualityRank - a.qualityRank`: higher average score first. */
  predicate HigherIncomeScore(x: AdsetIncome, y: AdsetIncome) {
    x.avgScore >= y.avgScore
  }

  function IncomeAdset(e: AdsetIncome): string { e.adset }
  function IncomeLeads(e: AdsetIncome): nat { e.totalLeads }

  /** `adsetIncomeData`: each adset with its leads, their income bands and their average score,
      highest score first. */
  function AdsetIncomeData(rows: seq<Row>): seq<AdsetIncome> {
    Sort(Map(Adsets(rows), AdsetIncomeOf(rows)), HigherIncomeScore)
  }

  /** The table is ordered by average score, lists each adset once with its own leads' figures,
      and its lead counts add up to the rows that have an adset. */
  lemma AdsetIncomeDataSpec(rows: seq<Row>)
    ensures Sorted(AdsetIncomeData(rows), HigherIncomeScore)
    ensures DistinctKeys(AdsetIncomeData(rows), IncomeAdset)
    ensures forall e :: e in AdsetIncomeData(rows) ==>
              e.adset in Adsets(rows) && e == AdsetIncomeOf(rows)(e.adset)
              && e.totalLeads > 0 && 0.0 <= e.avgScore <= 7.0
    ensures forall a :: a in Adsets(rows) ==> AdsetIncomeOf(rows)(a) in AdsetIncomeData(rows)
    ensures SumNat(AdsetIncomeData(rows), IncomeLeads) == |Filter(rows, HasAdset)|
  {
    assert TotalPreorder(HigherIncomeScore);
    RankedTable(Adsets(rows), AdsetIncomeOf(rows), IncomeAdset, HigherIncomeScore);
    forall e | e in AdsetIncomeData(rows) ensures e.totalLeads > 0 && 0.0 <= e.avgScore <= 7.0 {
      AdsetHasLeads(rows, e.adset);
      AvgScoreBounds(LeadsOf(rows, e.adset));
    }
    AdsetTotal(rows, AdsetIncomeOf(rows), IncomeLeads, HigherIncomeScore);
  }

  // ----- The adset quality table -----

  predicate QualifiedRow(row: Row) { IsQualified(IncomeOf(row)) }
  predicate HighIncomeRow(row: Row) { IsHighIncome(IncomeOf(row)) }

  datatype AdsetQuality = AdsetQuality(
    adset: string, totalLeads: nat, qualifiedLeads: nat, highIncomeLeads: nat,
    qualifiedRate: real, highIncomeRate: real, avgScore: real)

  function QualityOf(a: string, leads: seq<Row>): AdsetQuality {
    var total := |leads|;
    var qualified := |Filter(leads, QualifiedRow)|;
    var high := |Filter(leads, HighIncomeRow)|;
    AdsetQuality(a, total, qualified, high, GuardedPercent(qualified as real, total as real),
      GuardedPercent(high as real, total as real), AvgScore(leads))
  }

  function AdsetQualityOf(rows: seq<Row>): string -> AdsetQuality {
    a => QualityOf(a, LeadsOf(rows, a))
  }

  predicate HigherQuality(x: AdsetQuality, y: AdsetQuality) {
    x.avgScore >= y.avgScore
  }

  function QualityAdset(e: AdsetQuality): string { e.adset }
  function QualityLeads(e: AdsetQuality): nat { e.totalLeads }

  /** The adset quality aggregate: each adset with its qualified and high-income leads and their
      rates, highest average score first. */
  function AdsetQualityTable(rows: seq<Row>): seq<AdsetQuality> {
    Sort(Map(Adsets(rows), AdsetQualityOf(rows)), HigherQuality)
  }

  /** High-income leads are among the qualified ones, so neither count nor rate of the first can
      exceed the second, and both rates are percentages. */
  lemma QualityBounds(a: string, leads: seq<Row>)
    ensures QualityOf(a, leads).highIncomeLeads <= QualityOf(a, leads).qualifiedLeads <= |leads|
    ensures 0.0 <= QualityOf(a, leads).highIncomeRate <= QualityOf(a, leads).qualifiedRate <= 100.0
    ensures 0.0 <= QualityOf(a, leads).avgScore <= 7.0
  {
    forall i | 0 <= i < |leads| ensures HighIncomeRow(leads[i]) ==> QualifiedRow(leads[i]) {
      if HighIncomeRow(leads[i]) {
        HighIncomeIsQualified(IncomeOf(leads[i]));
      }
    }
    FilterMonotone(leads, HighIncomeRow, QualifiedRow);
    var q := |Filter(leads, QualifiedRow)|;
    var h := |Filter(leads, HighIncomeRow)|;
    PercentMonotone(h as real, q as real, |leads| as real);
    PercentOfCount(h, |leads|);
    PercentOfCount(q, |leads|);
    AvgScoreBounds(leads);
  }

  /** The quality table is ordered by average score, lists each adset once with its own leads'
      figures, keeps high-income within qualified within total, and its lead counts add up to the
      rows that have an adset. */
  lemma AdsetQualitySpec(rows: seq<Row>)
    ensures Sorted(AdsetQualityTable(rows), HigherQuality)
    ensures DistinctKeys(AdsetQualityTable(rows), QualityAdset)
    ensures forall e :: e in AdsetQualityTable(rows) ==>
              e.adset in Adsets(rows) && e == AdsetQualityOf(rows)(e.adset)
              && 0 < e.totalLeads && e.highIncomeLeads <= e.qualifiedLeads <= e.totalLeads
              && 0.0 <= e.highIncomeRate <= e.qualifiedRate <= 100.0
    ensures forall a :: a in Adsets(rows) ==> AdsetQualityOf(rows)(a) in AdsetQualityTable(rows)
    ensures SumNat(AdsetQualityTable(rows), QualityLeads) == |Filter(rows, HasAdset)|
  {
    assert TotalPreorder(HigherQuality);
    RankedTable(Adsets(rows), AdsetQualityOf(rows), QualityAdset, HigherQuality);
    forall e | e in AdsetQualityTable(rows)
      ensures 0 < e.totalLeads && e.highIncomeLeads <= e.qualifiedLeads <= e.totalLeads
      ensures 0.0 <= e.highIncomeRate <= e.qualifiedRate <= 100.0
    {
      AdsetHasLeads(rows, e.adset);
      QualityBounds(e.adset, LeadsOf(rows, e.adset));
    }
    AdsetTotal(rows, AdsetQualityOf(rows), QualityLeads, HigherQuality);
  }
}
