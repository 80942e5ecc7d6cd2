/** The sales views of the dashboard (src/components/Dashboard.tsx): the per-adset sales table,
    the ad x adset quality table, and the drill-down of each adset's revenue into its ads. */
module Ads {
  import opened Common
  import opened Text
  import opened Seqs
  import opened Sorting
  import opened Columns
  import opened Amounts
  import opened AmountFacts
  import opened Funnel
  import opened Grouping

  // ----- Sale figures of a group of leads -----

  /** The amount the revenue sums read off a row: `parseFloat(<clean-up of the cell>) || 0`, on the
      cell as it is. */
  function SaleAmount(row: Row): real {
    JsAmount(ColumnValue(row, SalesCol))
  }

  /** The `withSales` test: the same amount, read off the trimmed cell, is positive. */
  predicate SoldByTrim(row: Row) {
    JsAmount(Trim(ColumnValue(row, SalesCol))) > 0.0
  }

  predicate PositiveAmount(row: Row) {
    SaleAmount(row) > 0.0
  }

  /** Trimming does not change the amount, so a row is a sale exactly when the amount the revenue
      adds up is positive. */
  lemma SoldIffPositiveAmount(row: Row)
    ensures SoldByTrim(row) <==> PositiveAmount(row)
  {
    TrimmedAmount(ColumnValue(row, SalesCol));
  }

  /** The sales tables count a sale by its amount alone; `hasValidSale` also turns down a cell
      that holds a `;`. */
  lemma ValidSaleIffSoldWithoutSemicolon(row: Row)
    ensures HasValidSale(row) <==> SoldByTrim(row) && ';' !in ColumnValue(row, SalesCol)
  {
    var v := ColumnValue(row, SalesCol);
    TrimmedAmount(v);
    assert LocaleClean("") == "";
    assert JsAmount("") == 0.0;
  }

  /** The figures of a group of leads: `totalLeads`, `totalSales`, `totalRevenue`, `avgTicket`
      and `conversionRate`. */
  datatype Figures = Figures(totalLeads: nat, totalSales: nat, totalRevenue: real, avgTicket: real, conversionRate: real)

  function FiguresOf(leads: seq<Row>): Figures {
    var sold := Filter(leads, SoldByTrim);
    var revenue := Sum(sold, SaleAmount);
    Figures(|leads|, |sold|, revenue, GuardedDiv(revenue, |sold| as real),
            GuardedPercent(|sold| as real, |leads| as real))
  }

  /** The amount a row adds to the revenue, 0 for a row that is not a sale. */
  function PositivePart(row: Row): real {
    if SaleAmount(row) > 0.0 then SaleAmount(row) else 0.0
  }

  /** The sales are the leads with a positive amount, so there are no more of them than leads and
      the conversion rate is a percentage. */
  lemma FiguresCounts(leads: seq<Row>)
    ensures FiguresOf(leads).totalLeads == |leads|
    ensures FiguresOf(leads).totalSales == |Filter(leads, PositiveAmount)| <= |leads|
    ensures 0.0 <= FiguresOf(leads).conversionRate <= 100.0
    ensures FiguresOf(leads).totalSales == 0 ==> FiguresOf(leads).conversionRate == 0.0
  {
    forall i | 0 <= i < |leads| ensures SoldByTrim(leads[i]) == PositiveAmount(leads[i]) {
      SoldIffPositiveAmount(leads[i]);
    }
    FilterCongruent(leads, SoldByTrim, PositiveAmount);
    var sold := Filter(leads, SoldByTrim);
    PercentOfCount(|sold|, |leads|);
    if |sold| == 0 {
      PercentBounds(0.0, |leads| as real);
    }
  }

  /** The revenue is the sum of the positive amounts over every lead; it is positive exactly when
      there is a sale. */
  lemma FiguresRevenue(leads: seq<Row>)
    ensures FiguresOf(leads).totalRevenue == Sum(leads, PositivePart)
    ensures FiguresOf(leads).totalRevenue >= 0.0
    ensures FiguresOf(leads).totalRevenue > 0.0 <==> FiguresOf(leads).totalSales > 0
  {
    var sold := Filter(leads, SoldByTrim);
    forall i | 0 <= i < |leads|
      ensures PositivePart(leads[i]) == (if SoldByTrim(leads[i]) then SaleAmount(leads[i]) else 0.0)
    {
      SoldIffPositiveAmount(leads[i]);
    }
    SumFilter(leads, SoldByTrim, SaleAmount, PositivePart);
    forall i | 0 <= i < |sold| ensures SaleAmount(sold[i]) > 0.0 {
      assert sold[i] in leads;
      SoldIffPositiveAmount(sold[i]);
    }
    SumPositive(sold, SaleAmount);
  }

  /** The ticket of `sales` sales worth `revenue` together. */
  lemma TicketOf(revenue: real, sales: nat)
    requires revenue > 0.0 <==> sales > 0
    ensures sales == 0 ==> GuardedDiv(revenue, sales as real) == 0.0
    ensures sales > 0 ==> GuardedDiv(revenue, sales as real) > 0.0
    ensures sales > 0 ==> GuardedDiv(revenue, sales as real) * sales as real == revenue
  {
    if sales > 0 {
      QuotientPositive(revenue, sales);
    }
  }

  /** The average ticket is 0 without sales and positive with them (it is the revenue per sale,
      by `TicketOf`). */
  lemma FiguresTicket(leads: seq<Row>)
    ensures FiguresOf(leads).totalSales == 0 ==> FiguresOf(leads).avgTicket == 0.0
    ensures FiguresOf(leads).totalSales > 0 ==> FiguresOf(leads).avgTicket > 0.0
  {
    FiguresRevenue(leads);
    var f := FiguresOf(leads);
    TicketOf(f.totalRevenue, f.totalSales);
  }

  // ----- getAdsetSalesData -----

  datatype AdsetSales = AdsetSales(adset: string, figures: Figures)

  function AdsetSalesOf(rows: seq<Row>): string -> AdsetSales {
    a => AdsetSales(a, FiguresOf(LeadsOf(rows, a)))
  }

  /** The comparator `(a, b) => b.totalRevenue - a.totalRevenue`: more revenue first. */
  predicate MoreRevenue(x: AdsetSales, y: AdsetSales) {
    x.figures.totalRevenue >= y.figures.totalRevenue
  }

  function SalesAdset(e: AdsetSales): string { e.adset }
  function SalesLeads(e: AdsetSales): nat { e.figures.totalLeads }
  function SalesCount(e: AdsetSales): nat { e.figures.totalSales }

  /** `getAdsetSalesData`: each adset with the figures of its leads, most revenue first. */
  function AdsetSalesData(rows: seq<Row>): seq<AdsetSales> {
    Sort(Map(Adsets(rows), AdsetSalesOf(rows)), MoreRevenue)
  }

  /** The sales table is ordered by revenue and lists each adset once, with the figures of exactly
      its leads. */
  lemma AdsetSalesSpec(rows: seq<Row>)
    ensures Sorted(AdsetSalesData(rows), MoreRevenue)
    ensures DistinctKeys(AdsetSalesData(rows), SalesAdset)
    ensures forall e :: e in AdsetSalesData(rows) ==>
              e.adset in Adsets(rows) && e == AdsetSalesOf(rows)(e.adset) && e.figures.totalLeads > 0
    ensures forall a :: a in Adsets(rows) ==> AdsetSalesOf(rows)(a) in AdsetSalesData(rows)
  {
    assert TotalPreorder(MoreRevenue);
    RankedTable(Adsets(rows), AdsetSalesOf(rows), SalesAdset, MoreRevenue);
    forall e | e in AdsetSalesData(rows) ensures e.figures.totalLeads > 0 {
      AdsetHasLeads(rows, e.adset);
    }
  }

  /** Each adset's sales are the sales among its leads. */
  lemma AdsetSalesAreSales(rows: seq<Row>, a: string)
    ensures SalesCount(AdsetSalesOf(rows)(a)) == |WithKey(Filter(rows, SoldByTrim), AdsetOf, a)|
  {
    FilterWithKey(rows, AdsetOf, a, SoldByTrim);
  }

  /** The leads of the table add up to the rows with an adset, and its sales to the sales with an
      adset. */
  lemma AdsetSalesTotals(rows: seq<Row>)
    ensures SumNat(AdsetSalesData(rows), SalesLeads) == |Filter(rows, HasAdset)|
    ensures SumNat(AdsetSalesData(rows), SalesCount) == |Filter(Filter(rows, SoldByTrim), HasAdset)|
  {
    AdsetTotal(rows, AdsetSalesOf(rows), SalesLeads, MoreRevenue);
    var sold := Filter(rows, SoldByTrim);
    forall a ensures SalesCount(AdsetSalesOf(rows)(a)) == |WithKey(sold, AdsetOf, a)| {
      AdsetSalesAreSales(rows, a);
    }
    forall i | 0 <= i < |sold| ensures sold[i] in rows {
      FilterSubsequence(rows, SoldByTrim);
    }
    AdsetCountTotal(rows, sold, AdsetSalesOf(rows), SalesCount, MoreRevenue);
  }

  // ----- Ad x adset combinations -----

  /** An ad within an adset. */
  datatype Combo = Combo(ad: string, adset: string)

  predicate HasAdAndAdset(row: Row) {
    AdOf(row) != "" && AdsetOf(row) != ""
  }

  function ComboOf(row: Row): Combo {
    Combo(AdOf(row), AdsetOf(row))
  }

  /** The set key `${ad}|||${adset}`. */
  function ComboKey(ad: string, adset: string): string {
    ad + "|||" + adset
  }

  function ComboText(row: Row): string {
    ComboKey(AdOf(row), AdsetOf(row))
  }

  /** The combinations as the loop of `getAllAdsData` collects them: rows are told apart by their
      text key, and the first row with a key gives its ad and adset. */
  function CombosAsWritten(rows: seq<Row>): seq<Combo> {
    Map(KeepFirst(Filter(rows, HasAdAndAdset), ComboText), ComboOf)
  }

  /** The distinct (ad, adset) pairs of the rows that have both, in order of first appearance. */
  function Combos(rows: seq<Row>): seq<Combo> {
    KeysOf(rows, HasAdAndAdset, ComboOf)
  }

  /** The ad and adset of a row, read as the loop reads them, and whether it has both. */
  method ReadCombo(row: Row) returns (ok: bool, c: Combo)
    ensures ok == HasAdAndAdset(row) && c == ComboOf(row)
  {
    var ad := GetColumnValue(row, AdCol);
    var adset := GetColumnValue(row, AdsetCol);
    ok, c := ad != "" && adset != "", Combo(ad, adset);
  }

  /** The loop `if (ad && adset && !combos.has(k)) { combos.add(k); out.push({ad, adset}) }` as
      written, over text keys. */
  method CollectCombosAsWritten(rows: seq<Row>) returns (out: seq<Combo>)
    ensures out == CombosAsWritten(rows)
  {
    out := [];
    var seen: set<string> := {};
    ghost var kept: seq<Row> := [];
    for i := 0 to |rows|
      invariant kept == KeepFirst(Filter(rows[..i], HasAdAndAdset), ComboText)
      invariant seen == KeySet(kept, ComboText)
      invariant out == Map(kept, ComboOf)
    {
      var row := rows[i];
      var ok, c := ReadCombo(row);
      var k := ComboKey(c.ad, c.adset);
      ghost var kept0, seen0 := kept, seen;
      if ok && k !in seen {
        seen := seen + {k};
        out := out + [c];
        kept := kept + [row];
        MapSnoc(kept0, row, ComboOf);
      }
      KeepFirstStep(rows[..i], row, HasAdAndAdset, ComboText, ok, k, kept0, seen0, kept, seen);
      TakeSnoc(rows, i);
    }
    assert rows[..|rows|] == rows;
  }

  /** The same loop keyed by the pair itself. */
  method CollectCombos(rows: seq<Row>) returns (out: seq<Combo>)
    ensures out == Combos(rows)
  {
    out := [];
    var seen: set<Combo> := {};
    ghost var kept: seq<Row> := [];
    for i := 0 to |rows|
      invariant kept == KeepFirst(Filter(rows[..i], HasAdAndAdset), ComboOf)
      invariant seen == KeySet(kept, ComboOf)
      invariant out == Map(kept, ComboOf)
    {
      var row := rows[i];
      var ok, k := ReadCombo(row);
      ghost var kept0, seen0 := kept, seen;
      if ok && k !in seen {
        seen := seen + {k};
        out := out + [k];
        kept := kept + [row];
        MapSnoc(kept0, row, ComboOf);
      }
      KeepFirstStep(rows[..i], row, HasAdAndAdset, ComboOf, ok, k, kept0, seen0, kept, seen);
      TakeSnoc(rows, i);
    }
    assert rows[..|rows|] == rows;
  }

  /** Each pair is listed once, every row with an ad and an adset has its pair listed, and every
      listed pair is that of such a row. */
  lemma CombosSpec(rows: seq<Row>)
    ensures NoDuplicates(Combos(rows))
    ensures forall r :: r in rows && HasAdAndAdset(r) ==> ComboOf(r) in Combos(rows)
    ensures forall c :: c in Combos(rows) ==> exists r :: r in rows && HasAdAndAdset(r) && ComboOf(r) == c
    ensures forall c :: c in Combos(rows) ==> c.ad != "" && c.adset != ""
  {
    KeysOfSpec(rows, HasAdAndAdset, ComboOf);
  }

  /** The index of the first `|` in `t`, or its length when there is none. */
  function FirstBar(t: string): (i: nat)
    ensures i <= |t|
  {
    if |t| == 0 || t[0] == '|' then 0 else 1 + FirstBar(t[1..])
  }

  lemma {:induction false} FirstBarAfter(a: string, rest: string)
    requires '|' !in a && |rest| > 0 && rest[0] == '|'
    ensures FirstBar(a + rest) == |a|
  {
    if |a| > 0 {
      assert (a + rest)[1..] == a[1..] + rest;
      FirstBarAfter(a[1..], rest);
    } else {
      assert a + rest == rest;
    }
  }

  /** The text key tells pairs apart as long as the ad names hold no `|`. */
  lemma ComboKeyInjective(a1: string, s1: string, a2: string, s2: string)
    requires '|' !in a1 && '|' !in a2
    ensures ComboKey(a1, s1) == ComboKey(a2, s2) <==> a1 == a2 && s1 == s2
  {
    var t1, t2 := ComboKey(a1, s1), ComboKey(a2, s2);
    assert t1 == a1 + ("|||" + s1) && t2 == a2 + ("|||" + s2);
    FirstBarAfter(a1, "|||" + s1);
    FirstBarAfter(a2, "|||" + s2);
    if t1 == t2 {
      assert |a1| == |a2|;
      assert a1 == t1[..|a1|] && a2 == t2[..|a2|];
      assert s1 == t1[|a1| + 3..] && s2 == t2[|a2| + 3..];
    }
  }

  predicate PlainAd(row: Row) {
    '|' !in AdOf(row)
  }

  /** Without a `|` in any ad name, the loop as written collects exactly the pairs. */
  lemma AsWrittenAgrees(rows: seq<Row>)
    requires forall i :: 0 <= i < |rows| ==> PlainAd(rows[i])
    ensures CombosAsWritten(rows) == Combos(rows)
  {
    var f := Filter(rows, HasAdAndAdset);
    forall x, y | x in f && y in f ensures ComboText(x) == ComboText(y) <==> ComboOf(x) == ComboOf(y) {
      FilterSubsequence(rows, HasAdAndAdset);
      assert PlainAd(x) && PlainAd(y);
      ComboKeyInjective(AdOf(x), AdsetOf(x), AdOf(y), AdsetOf(y));
    }
    KeepFirstSameClasses(f, ComboText, ComboOf);
  }

  /** Ad `x|||y` in adset `z` and ad `x` in adset `y|||z` have the same text key. */
  lemma KeysCollide(x: string, y: string, z: string)
    ensures ComboKey(ComboKey(x, y), z) == ComboKey(x, ComboKey(y, z))
    ensures ComboKey(x, y) != x
  {
    assert |ComboKey(x, y)| > |x|;
  }

  lemma FilterPair<T>(a: T, b: T, p: T -> bool)
    requires p(a) && p(b)
    ensures Filter([a, b], p) == [a, b]
  {
    assert [a, b][1..] == [b];
    assert Filter([b], p) == [b];
  }

  /** Keeping the first of two elements. */
  lemma KeepFirstPair<T, K>(a: T, b: T, key: T -> K)
    ensures KeepFirst([a, b], key) == if key(a) == key(b) then [a] else [a, b]
  {
    assert [a, b][..1] == [a];
    assert KeepFirst([a], key) == [a];
    assert KeyIn([a], key, key(b)) <==> key(a) == key(b);
  }

  /** Two rows whose ad and adset differ but whose text keys coincide: the loop as written keeps
      only the first pair, the pairs themselves are two. */
  lemma AsWrittenMergesCollidingPairs(x: string, y: string, z: string, r1: Row, r2: Row)
    requires x != "" && z != ""
    requires AdOf(r1) == ComboKey(x, y) && AdsetOf(r1) == z
    requires AdOf(r2) == x && AdsetOf(r2) == ComboKey(y, z)
    ensures CombosAsWritten([r1, r2]) == [ComboOf(r1)]
    ensures Combos([r1, r2]) == [ComboOf(r1), ComboOf(r2)]
  {
    KeysCollide(x, y, z);
    PairCombos(r1, r2);
  }

  /** The combinations of two rows that both have an ad and an adset. */
  lemma PairCombos(r1: Row, r2: Row)
    requires HasAdAndAdset(r1) && HasAdAndAdset(r2)
    ensures CombosAsWritten([r1, r2]) == if ComboText(r1) == ComboText(r2) then [ComboOf(r1)] else [ComboOf(r1), ComboOf(r2)]
    ensures Combos([r1, r2]) == if ComboOf(r1) == ComboOf(r2) then [ComboOf(r1)] else [ComboOf(r1), ComboOf(r2)]
  {
    PairKeys(r1, r2, HasAdAndAdset, ComboText, ComboOf);
    PairKeys(r1, r2, HasAdAndAdset, ComboOf, ComboOf);
  }

  /** The first elements of two accepted elements, each mapped by `f`. */
  lemma PairKeys<T, K, U>(a: T, b: T, p: T -> bool, key: T -> K, f: T -> U)
    requires p(a) && p(b)
    ensures Map(KeepFirst(Filter([a, b], p), key), f) == if key(a) == key(b) then [f(a)] else [f(a), f(b)]
  {
    FilterPair(a, b, p);
    KeepFirstPair(a, b, key);
  }

  /** Two such rows as the reader builds them: ad `a|||b` in adset `c`, and ad `a` in adset
      `b|||c`. */
  lemma CollidingPairsExample()
    ensures |CombosAsWritten([[("ad_name", "a|||b"), ("adset_name", "c")], [("ad_name", "a"), ("adset_name", "b|||c")]])| == 1
    ensures |Combos([[("ad_name", "a|||b"), ("adset_name", "c")], [("ad_name", "a"), ("adset_name", "b|||c")]])| == 2
  {
    var r1: Row := [("ad_name", "a|||b"), ("adset_name", "c")];
    var r2: Row := [("ad_name", "a"), ("adset_name", "b|||c")];
    assert r1[0].0 == "ad_name" && r1[1].0 == "adset_name";
    assert r2[0].0 == "ad_name" && r2[1].0 == "adset_name";
    ExactMatchWins(r1, AdCol, 0);
    ExactMatchWins(r1, AdsetCol, 0);
    ExactMatchWins(r2, AdCol, 0);
    ExactMatchWins(r2, AdsetCol, 0);
    assert ComboKey("a", "b") == "a|||b" && ComboKey("b", "c") == "b|||c";
    AsWrittenMergesCollidingPairs("a", "b", "c", r1, r2);
  }

  // ----- getAllAdsData -----

  /** `rows.filter(r => ad(r) === c.ad && adset(r) === c.adset)`. */
  function ComboLeads(rows: seq<Row>, c: Combo): seq<Row> {
    WithKey(rows, ComboOf, c)
  }

  /** Every listed pair has at least one lead. */
  lemma ComboHasLeads(rows: seq<Row>, c: Combo)
    requires c in Combos(rows)
    ensures |ComboLeads(rows, c)| > 0
  {
    CombosSpec(rows);
    var r :| r in rows && HasAdAndAdset(r) && ComboOf(r) == c;
    WithKeyKeeps(rows, ComboOf, c, r);
  }

  /** The groups of the listed pairs partition the rows that have an ad and an adset. */
  lemma ComboGroupsPartition(rows: seq<Row>)
    ensures GroupSizes(rows, ComboOf, Combos(rows)) == |Filter(rows, HasAdAndAdset)|
  {
    var cs := Combos(rows);
    CombosSpec(rows);
    GroupsPartition(rows, ComboOf, cs);
    forall i | 0 <= i < |rows| ensures HasAdAndAdset(rows[i]) <==> ComboOf(rows[i]) in cs {
      assert rows[i] in rows;
    }
    CountInFilter(rows, ComboOf, cs, HasAdAndAdset);
  }

  datatype AdQuality = AdQuality(
    ad: string, adset: string, totalLeads: nat, avgScore: real, highIncomeLeads: nat, highIncomePercentage: real)

  function AdQualityOf(rows: seq<Row>): Combo -> AdQuality {
    c =>
      var leads := ComboLeads(rows, c);
      var high := |Filter(leads, HighIncomeRow)|;
      AdQuality(c.ad, c.adset, |leads|, AvgScore(leads), high, GuardedPercent(high as real, |leads| as real))
  }

  /** The comparator `(a, b) => b.totalLeads - a.totalLeads`. */
  predicate MoreAdLeads(x: AdQuality, y: AdQuality) {
    x.totalLeads >= y.totalLeads
  }

  function QualityCombo(e: AdQuality): Combo { Combo(e.ad, e.adset) }
  function AdLeads(e: AdQuality): nat { e.totalLeads }

  /** `getAllAdsData`: each ad x adset pair with its leads' average income score and high-income
      share, most leads first. */
  function AllAdsData(rows: seq<Row>): seq<AdQuality> {
    Sort(Map(Combos(rows), AdQualityOf(rows)), MoreAdLeads)
  }

  /** The figures of one pair: its high-income leads are some of its leads, their share is a
      percentage and the average score lies between 0 and 7. */
  lemma AdQualityBounds(rows: seq<Row>, c: Combo)
    ensures AdQualityOf(rows)(c).highIncomeLeads <= AdQualityOf(rows)(c).totalLeads
    ensures 0.0 <= AdQualityOf(rows)(c).highIncomePercentage <= 100.0
    ensures 0.0 <= AdQualityOf(rows)(c).avgScore <= 7.0
  {
    var leads := ComboLeads(rows, c);
    PercentOfCount(|Filter(leads, HighIncomeRow)|, |leads|);
    AvgScoreBounds(leads);
  }

  /** The ads table is ordered by leads, lists each pair once with its own leads' figures, and its
      lead counts add up to the rows that have an ad and an adset. */
  lemma AllAdsDataSpec(rows: seq<Row>)
    ensures Sorted(AllAdsData(rows), MoreAdLeads)
    ensures DistinctKeys(AllAdsData(rows), QualityCombo)
    ensures forall e :: e in AllAdsData(rows) ==>
              QualityCombo(e) in Combos(rows) && e == AdQualityOf(rows)(QualityCombo(e))
              && 0 < e.totalLeads && e.highIncomeLeads <= e.totalLeads
              && 0.0 <= e.highIncomePercentage <= 100.0 && 0.0 <= e.avgScore <= 7.0
    ensures forall c :: c in Combos(rows) ==> AdQualityOf(rows)(c) in AllAdsData(rows)
    ensures SumNat(AllAdsData(rows), AdLeads) == |Filter(rows, HasAdAndAdset)|
  {
    var cs := Combos(rows);
    CombosSpec(rows);
    assert TotalPreorder(MoreAdLeads);
    RankedTable(cs, AdQualityOf(rows), QualityCombo, MoreAdLeads);
    forall e | e in AllAdsData(rows)
      ensures 0 < e.totalLeads && e.highIncomeLeads <= e.totalLeads
      ensures 0.0 <= e.highIncomePercentage <= 100.0 && 0.0 <= e.avgScore <= 7.0
    {
      ComboHasLeads(rows, QualityCombo(e));
      AdQualityBounds(rows, QualityCombo(e));
    }
    var raw := Map(cs, AdQualityOf(rows));
    SortSumNat(raw, MoreAdLeads, AdLeads);
    SumNatGroups(rows, ComboOf, cs, raw, AdLeads);
    ComboGroupsPartition(rows);
  }

  // ----- getAdsByAdsetDrillDown -----

  /** The candidate lists of the drill-down, which name `ad_name` and `adset_name` twice. */
  const DrillAdCol: seq<string> := ["ad_name", "ad", "Ad", "anuncio", "anúncio", "ad_name", "AdName"]
  const DrillAdsetCol: seq<string> := ["adset_name", "adset", "Adset", "conjunto", "adset_name", "AdsetName"]

  /** The repeated candidates change nothing: the drill-down reads the same ad and adset as the rest
      of the dashboard. */
  lemma DrillColumns(row: Row)
    ensures ColumnValue(row, DrillAdCol) == AdOf(row)
    ensures ColumnValue(row, DrillAdsetCol) == AdsetOf(row)
  {
    var ads: seq<string> := ["ad_name", "ad", "Ad", "anuncio", "anúncio"];
    assert ads[0] == "ad_name";
    assert DrillAdCol == ads + ["ad_name"] + ["AdName"] && AdCol == ads + ["AdName"];
    RepeatedCandidate(row, ads, "ad_name", ["AdName"]);
    var adsets: seq<string> := ["adset_name", "adset", "Adset", "conjunto"];
    assert adsets[0] == "adset_name";
    assert DrillAdsetCol == adsets + ["adset_name"] + ["AdsetName"] && AdsetCol == adsets + ["AdsetName"];
    RepeatedCandidate(row, adsets, "adset_name", ["AdsetName"]);
  }

  /** The sale figures of one ad x adset pair (`adsSales`). */
  datatype AdSales = AdSales(combo: Combo, figures: Figures)

  function AdSalesOf(rows: seq<Row>): Combo -> AdSales {
    c => AdSales(c, FiguresOf(ComboLeads(rows, c)))
  }

  predicate MoreAdRevenue(x: AdSales, y: AdSales) {
    x.figures.totalRevenue >= y.figures.totalRevenue
  }

  function SalesCombo(e: AdSales): Combo { e.combo }

  /** `adsSales`: each pair with its sale figures, most revenue first. */
  function AdsSales(rows: seq<Row>): seq<AdSales> {
    Sort(Map(Combos(rows), AdSalesOf(rows)), MoreAdRevenue)
  }

  /** An ad with the share of its adset's revenue it brought in. */
  datatype AdShare = AdShare(sales: AdSales, percentOfAdset: real)

  predicate MoreShareRevenue(x: AdShare, y: AdShare) {
    x.sales.figures.totalRevenue >= y.sales.figures.totalRevenue
  }

  /** `a => a.adset === adsetData.adset && a.totalSales > 0`. */
  function SoldInAdset(a: string): AdSales -> bool {
    (s: AdSales) => s.combo.adset == a && s.figures.totalSales > 0
  }

  /** `a => ({ ...a, percentOfAdset: ... })` against an adset revenue. */
  function ShareOf(revenue: real): AdSales -> AdShare {
    (s: AdSales) => AdShare(s, GuardedPercent(s.figures.totalRevenue, revenue))
  }

  datatype AdsetDrill = AdsetDrill(adsetData: AdsetSales, ads: seq<AdShare>)

  function DrillOf(rows: seq<Row>): AdsetSales -> AdsetDrill {
    (e: AdsetSales) => AdsetDrill(e, Sort(Map(Filter(AdsSales(rows), SoldInAdset(e.adset)), ShareOf(e.figures.totalRevenue)), MoreShareRevenue))
  }

  predicate HasSales(e: AdsetSales) {
    e.figures.totalSales > 0
  }

  predicate MoreDrillRevenue(x: AdsetDrill, y: AdsetDrill) {
    x.adsetData.figures.totalRevenue >= y.adsetData.figures.totalRevenue
  }

  /** `getAdsByAdsetDrillDown`: the adsets with sales, most revenue first, each with its ads that
      sold, most revenue first, and each ad's share of the adset's revenue. */
  function DrillDown(rows: seq<Row>): seq<AdsetDrill> {
    Sort(Map(Filter(AdsetSalesData(rows), HasSales), DrillOf(rows)), MoreDrillRevenue)
  }

  /** An ad's revenue is part of its adset's, so its share is a percentage. */
  lemma AdShareBounds(rows: seq<Row>, c: Combo)
    ensures 0.0 <= AdSalesOf(rows)(c).figures.totalRevenue <= AdsetSalesOf(rows)(c.adset).figures.totalRevenue
    ensures 0.0 <= ShareOf(AdsetSalesOf(rows)(c.adset).figures.totalRevenue)(AdSalesOf(rows)(c)).percentOfAdset <= 100.0
  {
    forall i | 0 <= i < |rows| ensures SoldByTrim(rows[i]) ==> SaleAmount(rows[i]) >= 0.0 {
      SoldIffPositiveAmount(rows[i]);
    }
    SumSubgroup(rows, ComboOf, c, AdsetOf, c.adset, SoldByTrim, SaleAmount);
    FiguresRevenue(ComboLeads(rows, c));
    PercentBounds(AdSalesOf(rows)(c).figures.totalRevenue, AdsetSalesOf(rows)(c.adset).figures.totalRevenue);
  }

  /** The ads table of the drill-down is ordered by revenue and lists each pair once with the
      figures of exactly its leads. */
  lemma AdsSalesSpec(rows: seq<Row>)
    ensures Sorted(AdsSales(rows), MoreAdRevenue)
    ensures DistinctKeys(AdsSales(rows), SalesCombo)
    ensures forall s :: s in AdsSales(rows) ==> s.combo in Combos(rows) && s == AdSalesOf(rows)(s.combo)
    ensures forall c :: c in Combos(rows) ==> AdSalesOf(rows)(c) in AdsSales(rows)
  {
    CombosSpec(rows);
    assert TotalPreorder(MoreAdRevenue);
    RankedTable(Combos(rows), AdSalesOf(rows), SalesCombo, MoreAdRevenue);
  }

  /** The ads of one adset's entry, with their shares of `revenue`. */
  function DrillAds(rows: seq<Row>, a: string, revenue: real): seq<AdShare> {
    Sort(Map(Filter(AdsSales(rows), SoldInAdset(a)), ShareOf(revenue)), MoreShareRevenue)
  }

  /** Within one adset's entry: its ads are those of the adset that sold, with their share of the
      adset's revenue, most revenue first. */
  lemma DrillOfSpec(rows: seq<Row>, a: string)
    ensures Sorted(DrillOf(rows)(AdsetSalesOf(rows)(a)).ads, MoreShareRevenue)
    ensures forall s :: s in DrillOf(rows)(AdsetSalesOf(rows)(a)).ads ==>
              s.sales.combo in Combos(rows) && s.sales == AdSalesOf(rows)(s.sales.combo)
              && s.sales.combo.adset == a && s.sales.figures.totalSales > 0
              && 0.0 <= s.percentOfAdset <= 100.0
    ensures forall c :: c in Combos(rows) && c.adset == a && AdSalesOf(rows)(c).figures.totalSales > 0 ==>
              ShareOf(AdsetSalesOf(rows)(a).figures.totalRevenue)(AdSalesOf(rows)(c)) in DrillOf(rows)(AdsetSalesOf(rows)(a)).ads
  {
    var rev := AdsetSalesOf(rows)(a).figures.totalRevenue;
    assert DrillOf(rows)(AdsetSalesOf(rows)(a)).ads == DrillAds(rows, a, rev);
    DrillAdsSpec(rows, a, rev);
  }

  lemma DrillAdsSpec(rows: seq<Row>, a: string, rev: real)
    requires rev == AdsetSalesOf(rows)(a).figures.totalRevenue
    ensures Sorted(DrillAds(rows, a, rev), MoreShareRevenue)
    ensures forall s :: s in DrillAds(rows, a, rev) ==>
              s.sales.combo in Combos(rows) && s.sales == AdSalesOf(rows)(s.sales.combo)
              && s.sales.combo.adset == a && s.sales.figures.totalSales > 0
              && 0.0 <= s.percentOfAdset <= 100.0
    ensures forall c :: c in Combos(rows) && c.adset == a && AdSalesOf(rows)(c).figures.totalSales > 0 ==>
              ShareOf(rev)(AdSalesOf(rows)(c)) in DrillAds(rows, a, rev)
  {
    assert TotalPreorder(MoreShareRevenue);
    SortedImage(AdsSales(rows), SoldInAdset(a), ShareOf(rev), MoreShareRevenue);
    forall s | s in DrillAds(rows, a, rev)
      ensures s.sales.combo in Combos(rows) && s.sales == AdSalesOf(rows)(s.sales.combo)
      ensures s.sales.combo.adset == a && s.sales.figures.totalSales > 0 && 0.0 <= s.percentOfAdset <= 100.0
    {
      var x :| x in AdsSales(rows) && SoldInAdset(a)(x) && s == ShareOf(rev)(x);
      PickedShare(rows, a, x);
    }
    forall c | c in Combos(rows) && c.adset == a && AdSalesOf(rows)(c).figures.totalSales > 0
      ensures ShareOf(rev)(AdSalesOf(rows)(c)) in DrillAds(rows, a, rev)
    {
      AdsSalesSpec(rows);
    }
  }

  /** One ad of the adset that sold, with its share. */
  lemma PickedShare(rows: seq<Row>, a: string, x: AdSales)
    requires x in AdsSales(rows) && SoldInAdset(a)(x)
    ensures x.combo in Combos(rows) && x == AdSalesOf(rows)(x.combo) && x.combo.adset == a && x.figures.totalSales > 0
    ensures 0.0 <= ShareOf(AdsetSalesOf(rows)(a).figures.totalRevenue)(x).percentOfAdset <= 100.0
  {
    AdsSalesSpec(rows);
    AdShareBounds(rows, x.combo);
  }

  /** The drill-down is ordered by adset revenue, and holds exactly the adsets that sold, each
      with its sale figures. */
  lemma DrillDownSpec(rows: seq<Row>)
    ensures Sorted(DrillDown(rows), MoreDrillRevenue)
    ensures forall d :: d in DrillDown(rows) ==>
              d.adsetData.adset in Adsets(rows) && d.adsetData == AdsetSalesOf(rows)(d.adsetData.adset)
              && d.adsetData.figures.totalSales > 0 && d == DrillOf(rows)(d.adsetData)
    ensures forall a :: a in Adsets(rows) && AdsetSalesOf(rows)(a).figures.totalSales > 0 ==>
              DrillOf(rows)(AdsetSalesOf(rows)(a)) in DrillDown(rows)
  {
    AdsetSalesSpec(rows);
    assert TotalPreorder(MoreDrillRevenue);
    SortedImage(AdsetSalesData(rows), HasSales, DrillOf(rows), MoreDrillRevenue);
  }
}
