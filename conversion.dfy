/** Conversion time (`getConversionTimeAnalysis` and `getConversionTimeByMonth`,
    src/components/Dashboard.tsx): the list of sales whose lead and sale dates both parse, with
    the days from lead to sale, and per month of sale the sorted day counts with their mean,
    median, minimum and maximum. */
module Conversion {
  import opened Common
  import opened Seqs
  import opened Sorting
  import opened Columns
  import opened Dates
  import opened Grouping
  import opened Ads
  import opened Monthly
  import opened Overview
  import opened Tally

  const EmailCol: seq<string> := ["email"]

  /** One converted sale: `{ email, leadDate, saleDate, conversionDays, saleValue, isQualified,
      isHighIncome }`. */
  datatype Sale = Sale(email: string, leadDate: Date, saleDate: Date, conversionDays: int,
                       saleValue: real, isQualified: bool, isHighIncome: bool)

  /** A row with a positive amount whose creation and sale dates both parse. */
  predicate Converts(parse: DateParser, row: Row) {
    PositiveAmount(row) && DateOf(parse, LeadDate, row).Some? && DateOf(parse, SaleDate, row).Some?
  }

  function ConvertsOf(parse: DateParser): Row -> bool {
    r => Converts(parse, r)
  }

  /** The record pushed for a row, when it converts. */
  function ReadSale(parse: DateParser, row: Row): (c: Option<Sale>)
    ensures c.Some? <==> Converts(parse, row)
    ensures c.Some? ==> c.value.saleValue > 0.0 && c.value.conversionDays == ConversionDays(c.value.leadDate, c.value.saleDate)
  {
    match (DateOf(parse, LeadDate, row), DateOf(parse, SaleDate, row))
    case (Some(lead), Some(sale)) =>
      if PositiveAmount(row) then
        Some(Sale(ColumnValue(row, EmailCol), lead, sale, ConversionDays(lead, sale),
                  SaleAmount(row), QualifiedRow(row), HighIncomeRow(row)))
      else None
    case _ => None
  }

  function ReadSaleOf(parse: DateParser): Row -> Option<Sale> {
    r => ReadSale(parse, r)
  }

  /** What a loop that pushes `read(x)` for every `x` it can read holds afterwards. */
  function Collect<T, U>(xs: seq<T>, read: T -> Option<U>): seq<U>
    decreases |xs|
  {
    if |xs| == 0 then []
    else Collect(xs[..|xs| - 1], read) + (match read(xs[|xs| - 1]) case Some(c) => [c] case None => [])
  }

  function Readable<T, U>(read: T -> Option<U>): T -> bool {
    x => read(x).Some?
  }

  /** The pushing loop. */
  method CollectAll<T, U>(xs: seq<T>, read: T -> Option<U>) returns (out: seq<U>)
    ensures out == Collect(xs, read)
  {
    out := [];
    for i := 0 to |xs|
      invariant out == Collect(xs[..i], read)
    {
      var c := read(xs[i]);
      if c.Some? {
        out := out + [c.value];
      }
      TakeSnoc(xs, i);
    }
    assert xs[..|xs|] == xs;
  }

  /** One result per readable element, in order, each read off an element of the input. */
  lemma {:induction false} CollectSpec<T, U>(xs: seq<T>, read: T -> Option<U>)
    ensures |Collect(xs, read)| == |Filter(xs, Readable(read))|
    ensures forall c :: c in Collect(xs, read) ==> exists x :: x in xs && read(x) == Some(c)
    decreases |xs|
  {
    if |xs| > 0 {
      var init, last := xs[..|xs| - 1], xs[|xs| - 1];
      CollectSpec(init, read);
      assert xs == init + [last];
      FilterSnoc(init, last, Readable(read));
      forall c | c in Collect(xs, read) ensures exists x :: x in xs && read(x) == Some(c) {
        if c in Collect(init, read) {
          var x :| x in init && read(x) == Some(c);
          assert x in xs;
        } else {
          assert read(last) == Some(c);
        }
      }
    }
  }

  /** `conversions` after the loop over `rows`. */
  function Conversions(rows: seq<Row>, parse: DateParser): seq<Sale> {
    Collect(rows, ReadSaleOf(parse))
  }

  /** The loop of `getConversionTimeAnalysis`. */
  method GetConversionTimeAnalysis(rows: seq<Row>, parse: DateParser) returns (out: seq<Sale>)
    ensures out == Conversions(rows, parse)
  {
    out := CollectAll(rows, ReadSaleOf(parse));
  }

  /** One record per row with a positive amount and parseable creation and sale dates, in row
      order, each with a positive amount and the whole days from its lead date to its sale date. */
  lemma ConversionsSpec(rows: seq<Row>, parse: DateParser)
    ensures |Conversions(rows, parse)| == |Filter(rows, ConvertsOf(parse))|
    ensures forall c :: c in Conversions(rows, parse) ==>
      (exists r :: r in rows && ReadSale(parse, r) == Some(c))
      && c.saleValue > 0.0 && c.conversionDays == ConversionDays(c.leadDate, c.saleDate)
  {
    CollectSpec(rows, ReadSaleOf(parse));
    FilterCongruent(rows, Readable(ReadSaleOf(parse)), ConvertsOf(parse));
    forall c | c in Conversions(rows, parse) ensures c.saleValue > 0.0 && c.conversionDays == ConversionDays(c.leadDate, c.saleDate) {
      var r :| r in rows && ReadSaleOf(parse)(r) == Some(c);
    }
  }

  // ----- Per month of sale -----

  /** The month of a conversion's sale date. */
  function SaleMonthOf(c: Sale): string {
    MonthKey(c.saleDate)
  }

  function AnySale(c: Sale): bool {
    true
  }

  function DaysOf(c: Sale): int {
    c.conversionDays
  }

  function IsQualifiedSale(c: Sale): bool {
    c.isQualified
  }

  /** `monthly[saleDateKey]` after the grouping loop: `{ monthKey, conversions, totalSales,
      qualifiedConversions }`. */
  datatype MonthGroup = MonthGroup(monthKey: string, conversions: seq<int>, totalSales: nat, qualifiedConversions: nat)

  function NoConversions(k: string): MonthGroup {
    MonthGroup(k, [], 0, 0)
  }

  /** `conversions.push(conv.conversionDays)`, `totalSales++`, and `qualifiedConversions++` for a
      qualified lead. */
  function AddConversion(v: MonthGroup, c: Sale): MonthGroup {
    MonthGroup(v.monthKey, v.conversions + [c.conversionDays], v.totalSales + 1, v.qualifiedConversions + Flag(c.isQualified))
  }

  /** The conversions sold in month `k`. */
  function SoldIn(cs: seq<Sale>, k: string): seq<Sale> {
    WithKey(Filter(cs, AnySale), SaleMonthOf, k)
  }

  /** Month `k`'s group: its conversions' days in order, their number and the qualified ones. */
  function GroupEntry(cs: seq<Sale>, k: string): MonthGroup {
    var g := SoldIn(cs, k);
    MonthGroup(k, Map(g, DaysOf), |g|, |Filter(g, IsQualifiedSale)|)
  }

  function GroupEntryOf(cs: seq<Sale>): string -> MonthGroup {
    k => GroupEntry(cs, k)
  }

  lemma {:induction false} FoldConversions(k: string, g: seq<Sale>)
    ensures Fold(NoConversions(k), g, AddConversion) == MonthGroup(k, Map(g, DaysOf), |g|, |Filter(g, IsQualifiedSale)|)
    decreases |g|
  {
    if |g| > 0 {
      var init, last := g[..|g| - 1], g[|g| - 1];
      FoldConversions(k, init);
      assert g == init + [last];
      MapSnoc(init, last, DaysOf);
      FilterSnoc(init, last, IsQualifiedSale);
    }
  }

  /** One month's statistics: `{ monthKey, conversions (sorted), avgDays, medianDays, totalSales,
      qualifiedConversions, minDays, maxDays }`. */
  datatype MonthConversion = MonthConversion(monthKey: string, conversions: seq<int>, avgDays: real, medianDays: real,
                                             totalSales: nat, qualifiedConversions: nat, minDays: int, maxDays: int)

  predicate IntLe(a: int, b: int) {
    a <= b
  }

  function SumInt(s: seq<int>): int {
    if |s| == 0 then 0 else SumInt(s[..|s| - 1]) + s[|s| - 1]
  }

  /** `sorted.reduce((a, b) => a + b, 0) / sorted.length`, 0 for no days. */
  function Mean(s: seq<int>): real {
    if |s| > 0 then SumInt(s) as real / |s| as real else 0.0
  }

  /** The middle day, or the mean of the two middle days for an even number of days; 0 for none. */
  function Median(s: seq<int>): real {
    var n := |s|;
    if n == 0 then 0.0
    else if n % 2 == 0 then (s[n / 2 - 1] + s[n / 2]) as real / 2.0
    else s[n / 2] as real
  }

  /** The read-out of `getConversionTimeByMonth` for one month: the days sorted ascending, and
      their mean, median, first and last. */
  function Stats(e: MonthGroup): MonthConversion {
    var s := Sort(e.conversions, IntLe);
    var n := |s|;
    MonthConversion(e.monthKey, s, Mean(s), Median(s), e.totalSales, e.qualifiedConversions,
                    if n > 0 then s[0] else 0, if n > 0 then s[n - 1] else 0)
  }

  /** The months with a conversion, in order of first appearance. */
  function ConversionMonths(cs: seq<Sale>): seq<string> {
    KeysOf(cs, AnySale, SaleMonthOf)
  }

  /** `Object.keys(monthly).sort().map(...)`. */
  function ConversionTimeByMonth(rows: seq<Row>, parse: DateParser): seq<MonthConversion> {
    ByMonth(Conversions(rows, parse))
  }

  /** `getConversionTimeByMonth`: the conversions, grouped by month of sale in a dictionary, read
      out in sorted month order and summarised. */
  method GetConversionTimeByMonth(rows: seq<Row>, parse: DateParser) returns (out: seq<MonthConversion>)
    ensures out == ConversionTimeByMonth(rows, parse)
  {
    var cs := GetConversionTimeAnalysis(rows, parse);
    var monthly, keys := TallyAll(map[], [], NoConversions, cs, AnySale, SaleMonthOf, AddConversion);
    NewKeysEmpty(cs, AnySale, SaleMonthOf);
    var sorted := Sort(keys, LexLe);
    forall k | k in sorted ensures k in monthly && monthly[k] == GroupEntryOf(cs)(k) {
      SortMember(keys, LexLe, k);
      FoldConversions(k, SoldIn(cs, k));
    }
    var groups := ReadOut(monthly, sorted, GroupEntryOf(cs));
    out := Map(groups, Stats);
  }

  // ----- Properties -----

  lemma IntLeTotalPreorder()
    ensures TotalPreorder(IntLe)
  {
  }

  /** Every element of an ascending sequence lies between its first and its last. */
  lemma SortedEnds(s: seq<int>)
    requires Sorted(s, IntLe) && |s| > 0
    ensures forall i :: 0 <= i < |s| ==> s[0] <= s[i] <= s[|s| - 1]
  {
    forall i | 0 <= i < |s| ensures s[0] <= s[i] <= s[|s| - 1] {
      if 0 < i {
        assert IntLe(s[0], s[i]);
      }
      if i < |s| - 1 {
        assert IntLe(s[i], s[|s| - 1]);
      }
    }
  }

  lemma {:induction false} SumIntBounds(s: seq<int>, lo: int, hi: int)
    requires forall i :: 0 <= i < |s| ==> lo <= s[i] <= hi
    ensures |s| * lo <= SumInt(s) <= |s| * hi
    decreases |s|
  {
    if |s| > 0 {
      var init := s[..|s| - 1];
      assert forall i :: 0 <= i < |init| ==> init[i] == s[i];
      SumIntBounds(init, lo, hi);
      assert |s| * lo == |init| * lo + lo;
      assert |s| * hi == |init| * hi + hi;
    }
  }

  /** A total of `n` terms between `lo` and `hi`, shared out over the `n`, lies between them. */
  lemma MeanWithin(total: int, n: nat, lo: int, hi: int)
    requires n > 0 && n * lo <= total <= n * hi
    ensures lo as real <= total as real / n as real <= hi as real
  {
    var q, d := total as real / n as real, n as real;
    assert q * d == total as real;
    assert (q - lo as real) * d == total as real - (n * lo) as real;
    assert (hi as real - q) * d == (n * hi) as real - total as real;
  }

  /** Each month's days are its conversions' days, sorted ascending; the count is their number and
      at least the qualified ones; and the minimum, the median and the maximum come in that order,
      with the mean between the minimum and the maximum. */
  lemma StatsSpec(e: MonthGroup)
    requires e.totalSales == |e.conversions| && e.qualifiedConversions <= e.totalSales
    ensures Sorted(Stats(e).conversions, IntLe) && multiset(Stats(e).conversions) == multiset(e.conversions)
    ensures Stats(e).totalSales == |Stats(e).conversions| && Stats(e).qualifiedConversions <= Stats(e).totalSales
    ensures |e.conversions| > 0 ==>
      Stats(e).minDays as real <= Stats(e).medianDays <= Stats(e).maxDays as real
      && Stats(e).minDays as real <= Stats(e).avgDays <= Stats(e).maxDays as real
      && (forall d :: d in e.conversions ==> Stats(e).minDays <= d <= Stats(e).maxDays)
  {
    var s := Sort(e.conversions, IntLe);
    IntLeTotalPreorder();
    SortSorted(e.conversions, IntLe);
    SortPermutes(e.conversions, IntLe);
    if |s| > 0 {
      var n := |s|;
      SortedEnds(s);
      SumIntBounds(s, s[0], s[n - 1]);
      MeanWithin(SumInt(s), n, s[0], s[n - 1]);
      forall d | d in e.conversions ensures s[0] <= d <= s[n - 1] {
        assert d in multiset(s);
      }
    }
  }

  function SalesOfMonth(e: MonthConversion): nat { e.totalSales }

  /** `Object.keys(monthly).sort().map(...)` over any conversions. */
  function ByMonth(cs: seq<Sale>): seq<MonthConversion> {
    Map(Map(Sort(ConversionMonths(cs), LexLe), GroupEntryOf(cs)), Stats)
  }

  /** Entry `i` of the table summarises the `i`-th month in sorted order, which has a conversion. */
  lemma ByMonthAt(cs: seq<Sale>, i: nat)
    requires i < |Sort(ConversionMonths(cs), LexLe)|
    ensures i < |ByMonth(cs)|
    ensures ByMonth(cs)[i] == Stats(GroupEntry(cs, Sort(ConversionMonths(cs), LexLe)[i]))
    ensures ByMonth(cs)[i].monthKey == Sort(ConversionMonths(cs), LexLe)[i] && ByMonth(cs)[i].totalSales > 0
  {
    var ks := ConversionMonths(cs);
    var k := Sort(ks, LexLe)[i];
    SortMember(ks, LexLe, k);
    KeysOfSpec(cs, AnySale, SaleMonthOf);
    var x :| x in cs && AnySale(x) && SaleMonthOf(x) == k;
    FilterKeeps(cs, AnySale, x);
    WithKeyKeeps(Filter(cs, AnySale), SaleMonthOf, k, x);
  }

  /** The months come out strictly ascending, and each is the summary of its month's group. */
  lemma ByMonthOrdered(cs: seq<Sale>)
    ensures forall i, j :: 0 <= i < j < |ByMonth(cs)| ==>
      LexLe(ByMonth(cs)[i].monthKey, ByMonth(cs)[j].monthKey) && ByMonth(cs)[i].monthKey != ByMonth(cs)[j].monthKey
    ensures forall e :: e in ByMonth(cs) ==> e == Stats(GroupEntry(cs, e.monthKey)) && e.totalSales > 0
  {
    var sorted := Sort(ConversionMonths(cs), LexLe);
    KeysOfSpec(cs, AnySale, SaleMonthOf);
    SortedStrings(ConversionMonths(cs));
    forall i | 0 <= i < |sorted| ensures ByMonth(cs)[i].monthKey == sorted[i] && ByMonth(cs)[i] == Stats(GroupEntry(cs, sorted[i])) && ByMonth(cs)[i].totalSales > 0 {
      ByMonthAt(cs, i);
    }
  }

  /** Every conversion's month is in the table, and the months' sales add up to the conversions. */
  lemma ByMonthCovers(cs: seq<Sale>)
    ensures forall c :: c in cs ==> Stats(GroupEntry(cs, SaleMonthOf(c))) in ByMonth(cs)
    ensures SumNat(ByMonth(cs), SalesOfMonth) == |cs|
  {
    ByMonthEach(cs);
    ByMonthTotal(cs);
  }

  /** Every conversion's month has its row. */
  lemma ByMonthEach(cs: seq<Sale>)
    ensures forall c :: c in cs ==> Stats(GroupEntry(cs, SaleMonthOf(c))) in ByMonth(cs)
  {
    var ks := ConversionMonths(cs);
    var sorted := Sort(ks, LexLe);
    KeysOfSpec(cs, AnySale, SaleMonthOf);
    SortedStrings(ks);
    forall c | c in cs ensures Stats(GroupEntry(cs, SaleMonthOf(c))) in ByMonth(cs) {
      var i :| 0 <= i < |sorted| && sorted[i] == SaleMonthOf(c);
      ByMonthAt(cs, i);
    }
  }

  /** The rows' sale counts add up to the number of conversions. */
  lemma ByMonthTotal(cs: seq<Sale>)
    ensures SumNat(ByMonth(cs), SalesOfMonth) == |cs|
  {
    var ks := ConversionMonths(cs);
    var sorted := Sort(ks, LexLe);
    KeysOfSpec(cs, AnySale, SaleMonthOf);
    SortedStrings(ks);
    forall i | 0 <= i < |sorted| ensures SalesOfMonth(ByMonth(cs)[i]) == |WithKey(cs, SaleMonthOf, sorted[i])| {
      ByMonthAt(cs, i);
      FilterAll(cs, AnySale);
    }
    forall i | 0 <= i < |cs| ensures SaleMonthOf(cs[i]) in sorted {
      assert cs[i] in cs;
    }
    GroupTotal(cs, SaleMonthOf, sorted, ByMonth(cs), SalesOfMonth);
  }

  /** The dashboard's conversion months: strictly ascending, each the summary of its month's
      conversions, every conversion's month present, and the months' sales adding up to the rows
      with a positive amount and parseable creation and sale dates. */
  lemma ConversionTimeByMonthSpec(rows: seq<Row>, parse: DateParser)
    ensures forall i, j :: 0 <= i < j < |ConversionTimeByMonth(rows, parse)| ==>
      LexLe(ConversionTimeByMonth(rows, parse)[i].monthKey, ConversionTimeByMonth(rows, parse)[j].monthKey)
      && ConversionTimeByMonth(rows, parse)[i].monthKey != ConversionTimeByMonth(rows, parse)[j].monthKey
    ensures forall e :: e in ConversionTimeByMonth(rows, parse) ==>
      e == Stats(GroupEntry(Conversions(rows, parse), e.monthKey)) && e.totalSales > 0
    ensures forall c :: c in Conversions(rows, parse) ==>
      Stats(GroupEntry(Conversions(rows, parse), SaleMonthOf(c))) in ConversionTimeByMonth(rows, parse)
    ensures SumNat(ConversionTimeByMonth(rows, parse), SalesOfMonth) == |Filter(rows, ConvertsOf(parse))|
  {
    ByMonthOrdered(Conversions(rows, parse));
    ByMonthCovers(Conversions(rows, parse));
    ConversionsSpec(rows, parse);
  }

  /** In every month of the table the days are sorted ascending and number the month's sales, at
      least the qualified ones; and the minimum, the median and the maximum come in that order,
      with the mean between the minimum and the maximum and every day of the month between them. */
  lemma ConversionMonthBounds(rows: seq<Row>, parse: DateParser)
    ensures forall e :: e in ConversionTimeByMonth(rows, parse) ==>
      Sorted(e.conversions, IntLe) && e.totalSales == |e.conversions| && e.qualifiedConversions <= e.totalSales
      && e.minDays as real <= e.medianDays <= e.maxDays as real
      && e.minDays as real <= e.avgDays <= e.maxDays as real
      && (forall d :: d in e.conversions ==> e.minDays <= d <= e.maxDays)
  {
    var cs := Conversions(rows, parse);
    ByMonthOrdered(cs);
    forall e | e in ConversionTimeByMonth(rows, parse) ensures
      Sorted(e.conversions, IntLe) && e.totalSales == |e.conversions| && e.qualifiedConversions <= e.totalSales
      && e.minDays as real <= e.medianDays <= e.maxDays as real
      && e.minDays as real <= e.avgDays <= e.maxDays as real
      && (forall d :: d in e.conversions ==> e.minDays <= d <= e.maxDays) {
      var g := GroupEntry(cs, e.monthKey);
      StatsSpec(g);
      assert multiset(e.conversions) == multiset(g.conversions);
      forall d | d in e.conversions ensures d in g.conversions {
        assert d in multiset(e.conversions);
      }
    }
  }
}
