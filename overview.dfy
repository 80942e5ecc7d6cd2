/** The month-by-month overview of the dashboard (`getTemporalOverviewData`,
    src/components/Dashboard.tsx): leads per month of creation, with their qualified and
    high-income counts, beside the sales per month of sale. The overview is built and proved
    for any rows and any tests of the kinds the dashboard uses (`Tests`); `DashboardTests` are the
    dashboard's own. */
module Overview {
  import opened Common
  import opened Seqs
  import opened Sorting
  import opened Columns
  import opened Dates
  import opened Income
  import opened Grouping
  import opened Ads
  import opened Monthly
  import opened Tally

  /** `{ monthKey, totalLeads, qualifiedLeads, highIncomeLeads, sales }`. */
  datatype MonthOverview = MonthOverview(monthKey: string, totalLeads: nat, qualifiedLeads: nat, highIncomeLeads: nat, sales: nat)

  /** What the overview reads off a row: whether it is a lead with a month of creation and which,
      whether the lead is qualified and high-income, whether it is a sale with a month of sale and
      which, and its amount. */
  datatype Tests<!T> = Tests(
    lead: T -> bool, leadMonth: T -> string, qualified: T -> bool, highIncome: T -> bool,
    sale: T -> bool, saleMonth: T -> string, amount: T -> real)

  /** A row whose date of the given kind parses (`formatMonthYear` of it is not null). */
  function HasDate(parse: DateParser, dt: DateType): Row -> bool {
    r => DateOf(parse, dt, r).Some?
  }

  /** The dashboard's tests: a lead counts in the month of its `created_time`; a sale counts, as in
      `getSalesDataByDateType('saleDate')`, when its amount is positive and its sale date parses. */
  function DashboardTests(parse: DateParser): Tests<Row> {
    Tests(HasDate(parse, LeadDate), RowMonth(parse, LeadDate), QualifiedRow, HighIncomeRow,
          DatedSale(parse, SaleDate), RowMonth(parse, SaleDate), SaleAmount)
  }

  // ----- What the overview holds -----

  /** `getSalesDataByDateType('saleDate')` over the tests. */
  function SalesTable<T>(xs: seq<T>, t: Tests<T>): seq<MonthSales> {
    BucketTable(xs, t.sale, t.saleMonth, t.amount)
  }

  /** The leads created in month `k`. */
  function LeadsIn<T>(xs: seq<T>, t: Tests<T>, k: string): seq<T> {
    WithKey(Filter(xs, t.lead), t.leadMonth, k)
  }

  /** The months that have a lead, in order of first appearance. */
  function LeadMonths<T>(xs: seq<T>, t: Tests<T>): seq<string> {
    KeysOf(xs, t.lead, t.leadMonth)
  }

  /** Month `k` from its leads alone. */
  function LeadTally<T>(xs: seq<T>, t: Tests<T>, k: string): MonthOverview {
    var l := LeadsIn(xs, t, k);
    MonthOverview(k, |l|, |Filter(l, t.qualified)|, |Filter(l, t.highIncome)|, 0)
  }

  /** Month `k` of the overview: its leads by creation date and its sales by sale date. */
  function OverviewEntry<T>(xs: seq<T>, t: Tests<T>, k: string): MonthOverview {
    LeadTally(xs, t, k).(sales := Bucket(xs, t.sale, t.saleMonth, t.amount, k).salesCount)
  }

  function OverviewOf<T>(xs: seq<T>, t: Tests<T>): string -> MonthOverview {
    k => OverviewEntry(xs, t, k)
  }

  function Every(e: MonthSales): bool {
    true
  }

  function MonthKeyField(e: MonthSales): string {
    e.monthKey
  }

  /** The overview's months in insertion order: the lead months, then the months of the sales
      table that have no lead. */
  function OverviewMonths<T>(xs: seq<T>, t: Tests<T>): seq<string> {
    NewKeys(LeadMonths(xs, t), SalesTable(xs, t), Every, MonthKeyField)
  }

  /** `Object.keys(monthly).sort().map(k => monthly[k])`. */
  function OverviewTable<T>(xs: seq<T>, t: Tests<T>): seq<MonthOverview> {
    Map(Sort(OverviewMonths(xs, t), LexLe), OverviewOf(xs, t))
  }

  // ----- The two loops -----

  /** The entry created for a new month. */
  function NoLeads(k: string): MonthOverview {
    MonthOverview(k, 0, 0, 0, 0)
  }

  function Flag(b: bool): nat {
    if b then 1 else 0
  }

  /** The first loop's update: `totalLeads++`, and `qualifiedLeads++` / `highIncomeLeads++` when
      the lead's income answer is qualified / high. */
  function AddLead<T>(t: Tests<T>): (MonthOverview, T) -> MonthOverview {
    (v: MonthOverview, x: T) => MonthOverview(v.monthKey, v.totalLeads + 1,
      v.qualifiedLeads + Flag(t.qualified(x)), v.highIncomeLeads + Flag(t.highIncome(x)), v.sales)
  }

  /** The second loop's update, one per month of the sales table: `sales = saleMonth.salesCount`. */
  function SetSales(v: MonthOverview, e: MonthSales): MonthOverview {
    v.(sales := e.salesCount)
  }

  /** The first loop's updates over a month's leads count them and their qualified and
      high-income ones. */
  lemma {:induction false} FoldLeads<T>(t: Tests<T>, k: string, g: seq<T>)
    ensures Fold(NoLeads(k), g, AddLead(t)) == MonthOverview(k, |g|, |Filter(g, t.qualified)|, |Filter(g, t.highIncome)|, 0)
    decreases |g|
  {
    if |g| > 0 {
      var init, last := g[..|g| - 1], g[|g| - 1];
      FoldLeads(t, k, init);
      assert g == init + [last];
      FilterSnoc(init, last, t.qualified);
      FilterSnoc(init, last, t.highIncome);
    }
  }

  /** After the first loop, each month starts the second from its lead tally, listed or not. */
  lemma LeadStart<T>(xs: seq<T>, t: Tests<T>, m1: map<string, MonthOverview>, k: string)
    requires forall k' :: k' in m1 <==> k' in LeadMonths(xs, t)
    requires forall k' :: k' in m1 ==> m1[k'] == Entry(map[], NoLeads, xs, t.lead, t.leadMonth, AddLead(t), k')
    ensures Start(m1, NoLeads, k) == LeadTally(xs, t, k)
  {
    FoldLeads(t, k, LeadsIn(xs, t, k));
    if k !in m1 {
      KeysOfMissing(xs, t.lead, t.leadMonth, k);
    }
  }

  /** The second loop's update for month `k`, over a table with one entry per month: the sales
      count of `k`'s entry, or none. */
  lemma TableSales(table: seq<MonthSales>, v: MonthOverview, k: string, c: nat)
    requires DistinctKeys(table, MonthKeyField)
    requires forall i :: 0 <= i < |table| && table[i].monthKey == k ==> table[i].salesCount == c
    requires (forall i :: 0 <= i < |table| ==> table[i].monthKey != k) ==> c == 0
    requires v.sales == 0
    ensures Fold(v, WithKey(Filter(table, Every), MonthKeyField, k), SetSales) == v.(sales := c)
  {
    FilterAll(table, Every);
    WithKeyDistinct(table, MonthKeyField, k);
    var g := WithKey(table, MonthKeyField, k);
    if |g| == 1 {
      assert g[..0] == [];
    } else {
      assert g == [];
    }
  }

  /** The sales table has one entry per month, holding that month's count; a month it lacks has
      no counted sale. */
  lemma SalesTableFacts<T>(xs: seq<T>, t: Tests<T>, k: string)
    ensures DistinctKeys(SalesTable(xs, t), MonthKeyField)
    ensures forall i :: 0 <= i < |SalesTable(xs, t)| && SalesTable(xs, t)[i].monthKey == k ==>
      SalesTable(xs, t)[i].salesCount == Bucket(xs, t.sale, t.saleMonth, t.amount, k).salesCount
    ensures (forall i :: 0 <= i < |SalesTable(xs, t)| ==> SalesTable(xs, t)[i].monthKey != k) ==>
      Bucket(xs, t.sale, t.saleMonth, t.amount, k).salesCount == 0
  {
    var table := SalesTable(xs, t);
    BucketsOrdered(xs, t.sale, t.saleMonth, t.amount);
    BucketsEntries(xs, t.sale, t.saleMonth, t.amount);
    forall i | 0 <= i < |table| && table[i].monthKey == k ensures table[i].salesCount == Bucket(xs, t.sale, t.saleMonth, t.amount, k).salesCount {
      assert table[i] in table;
    }
    if k in KeysOf(xs, t.sale, t.saleMonth) {
      KeysOfSpec(xs, t.sale, t.saleMonth);
      var x :| x in xs && t.sale(x) && t.saleMonth(x) == k;
      BucketsCover(xs, t.sale, t.saleMonth, t.amount);
      var e := Bucket(xs, t.sale, t.saleMonth, t.amount, k);
      assert e in table;
      var i :| 0 <= i < |table| && table[i] == e;
      assert table[i].monthKey == k;
    } else {
      KeysOfMissing(xs, t.sale, t.saleMonth, k);
    }
  }

  /** After both loops, every month holds its overview entry. */
  lemma OverviewEntryCorrect<T>(xs: seq<T>, t: Tests<T>, m1: map<string, MonthOverview>, k: string)
    requires forall k' :: k' in m1 <==> k' in LeadMonths(xs, t)
    requires forall k' :: k' in m1 ==> m1[k'] == Entry(map[], NoLeads, xs, t.lead, t.leadMonth, AddLead(t), k')
    ensures Entry(m1, NoLeads, SalesTable(xs, t), Every, MonthKeyField, SetSales, k) == OverviewEntry(xs, t, k)
  {
    LeadStart(xs, t, m1, k);
    SalesTableFacts(xs, t, k);
    TableSales(SalesTable(xs, t), LeadTally(xs, t, k), k, Bucket(xs, t.sale, t.saleMonth, t.amount, k).salesCount);
  }

  /** The two loops of `getTemporalOverviewData` and its read-out: the first counts each lead into
      its month; the second sets each month of the sales table's sales count, creating the month
      if it has no lead; the entries are read out in the order of the sorted keys. */
  method BuildOverview<T>(xs: seq<T>, t: Tests<T>) returns (out: seq<MonthOverview>)
    ensures out == OverviewTable(xs, t)
  {
    var salesByDateSale := TallySales(xs, t.sale, t.saleMonth, t.amount);
    var m1, k1 := TallyAll(map[], [], NoLeads, xs, t.lead, t.leadMonth, AddLead(t));
    NewKeysEmpty(xs, t.lead, t.leadMonth);
    var monthly, keys := TallyAll(m1, k1, NoLeads, salesByDateSale, Every, MonthKeyField, SetSales);
    var sorted := Sort(keys, LexLe);
    forall k | k in sorted ensures k in monthly && monthly[k] == OverviewOf(xs, t)(k) {
      SortMember(keys, LexLe, k);
      OverviewEntryCorrect(xs, t, m1, k);
    }
    out := ReadOut(monthly, sorted, OverviewOf(xs, t));
  }

  /** `getTemporalOverviewData` over the dashboard's rows. */
  method GetTemporalOverviewData(rows: seq<Row>, parse: DateParser) returns (out: seq<MonthOverview>)
    ensures out == OverviewTable(rows, DashboardTests(parse))
  {
    out := BuildOverview(rows, DashboardTests(parse));
  }

  // ----- Properties -----

  /** A month is in the overview exactly when a lead was created in it or a sale was made in it,
      and no month is listed twice. */
  lemma OverviewMonthsSpec<T>(xs: seq<T>, t: Tests<T>)
    ensures NoDuplicates(OverviewMonths(xs, t))
    ensures forall k :: k in OverviewMonths(xs, t) <==>
      (exists x :: x in xs && t.lead(x) && t.leadMonth(x) == k) || (exists x :: x in xs && t.sale(x) && t.saleMonth(x) == k)
  {
    KeysOfSpec(xs, t.lead, t.leadMonth);
    NewKeysSpec(LeadMonths(xs, t), SalesTable(xs, t), Every, MonthKeyField);
    forall k ensures k in OverviewMonths(xs, t) <==>
      (exists x :: x in xs && t.lead(x) && t.leadMonth(x) == k) || (exists x :: x in xs && t.sale(x) && t.saleMonth(x) == k) {
      OverviewMonth(xs, t, k);
    }
  }

  /** One month is listed exactly when some lead was created in it or some sale made in it. */
  lemma OverviewMonth<T>(xs: seq<T>, t: Tests<T>, k: string)
    ensures k in OverviewMonths(xs, t) <==>
      (exists x :: x in xs && t.lead(x) && t.leadMonth(x) == k) || (exists x :: x in xs && t.sale(x) && t.saleMonth(x) == k)
  {
    var lm := LeadMonths(xs, t);
    var table := SalesTable(xs, t);
    assert k in lm <==> exists x :: x in xs && t.lead(x) && t.leadMonth(x) == k by {
      KeysOfSpec(xs, t.lead, t.leadMonth);
    }
    assert k in OverviewMonths(xs, t) <==> k in lm || exists e :: e in table && Every(e) && MonthKeyField(e) == k by {
      KeysOfSpec(xs, t.lead, t.leadMonth);
      NewKeysSpec(lm, table, Every, MonthKeyField);
    }
    SaleMonthListed(xs, t, k);
  }

  /** A month has an entry in the sales table exactly when a sale was made in it. */
  lemma SaleMonthListed<T>(xs: seq<T>, t: Tests<T>, k: string)
    ensures (exists e :: e in SalesTable(xs, t) && Every(e) && MonthKeyField(e) == k) <==>
      (exists x :: x in xs && t.sale(x) && t.saleMonth(x) == k)
  {
    var table := SalesTable(xs, t);
    BucketsEntries(xs, t.sale, t.saleMonth, t.amount);
    BucketsCover(xs, t.sale, t.saleMonth, t.amount);
    if exists e :: e in table && Every(e) && MonthKeyField(e) == k {
      var e :| e in table && Every(e) && MonthKeyField(e) == k;
      var g := WithKey(Filter(xs, t.sale), t.saleMonth, k);
      assert g[0] in g;
    }
    if exists x :: x in xs && t.sale(x) && t.saleMonth(x) == k {
      var x :| x in xs && t.sale(x) && t.saleMonth(x) == k;
      assert Bucket(xs, t.sale, t.saleMonth, t.amount, k) in table;
    }
  }

  /** Among any leads, the high-income ones are among the qualified ones when every high-income
      lead is qualified. */
  lemma HighAmongQualified<T>(l: seq<T>, t: Tests<T>)
    requires forall x :: t.highIncome(x) ==> t.qualified(x)
    ensures |Filter(l, t.highIncome)| <= |Filter(l, t.qualified)| <= |l|
  {
    FilterMonotone(l, t.highIncome, t.qualified);
  }

  /** A month with a lead or a sale has a lead or a sale in its entry. */
  lemma MonthHasActivity<T>(xs: seq<T>, t: Tests<T>, k: string)
    requires (exists x :: x in xs && t.lead(x) && t.leadMonth(x) == k) || (exists x :: x in xs && t.sale(x) && t.saleMonth(x) == k)
    ensures OverviewEntry(xs, t, k).totalLeads > 0 || OverviewEntry(xs, t, k).sales > 0
  {
    if exists x :: x in xs && t.lead(x) && t.leadMonth(x) == k {
      var x :| x in xs && t.lead(x) && t.leadMonth(x) == k;
      FilterKeeps(xs, t.lead, x);
      WithKeyKeeps(Filter(xs, t.lead), t.leadMonth, k, x);
    } else {
      var x :| x in xs && t.sale(x) && t.saleMonth(x) == k;
      FilterKeeps(xs, t.sale, x);
      WithKeyKeeps(Filter(xs, t.sale), t.saleMonth, k, x);
    }
  }

  /** The overview is in strictly ascending string order of its months, and every entry is its
      month's entry, with at least a lead or a sale and, when every high-income lead is qualified,
      no more high-income than qualified and no more qualified than all leads. */
  lemma OverviewTableSpec<T>(xs: seq<T>, t: Tests<T>)
    requires forall x :: t.highIncome(x) ==> t.qualified(x)
    ensures forall i, j :: 0 <= i < j < |OverviewTable(xs, t)| ==>
      LexLe(OverviewTable(xs, t)[i].monthKey, OverviewTable(xs, t)[j].monthKey)
      && OverviewTable(xs, t)[i].monthKey != OverviewTable(xs, t)[j].monthKey
    ensures forall e :: e in OverviewTable(xs, t) ==>
      e == OverviewEntry(xs, t, e.monthKey)
      && e.highIncomeLeads <= e.qualifiedLeads <= e.totalLeads
      && (e.totalLeads > 0 || e.sales > 0)
  {
    OverviewTableOrder(xs, t);
    var sorted := Sort(OverviewMonths(xs, t), LexLe);
    var out := OverviewTable(xs, t);
    assert forall k :: k in sorted <==> k in OverviewMonths(xs, t) by {
      OverviewMonthsSpec(xs, t);
      SortedStrings(OverviewMonths(xs, t));
    }
    forall e | e in out ensures e == OverviewEntry(xs, t, e.monthKey)
      && e.highIncomeLeads <= e.qualifiedLeads <= e.totalLeads && (e.totalLeads > 0 || e.sales > 0) {
      var j :| 0 <= j < |out| && out[j] == e;
      assert sorted[j] in sorted;
      OverviewRow(xs, t, sorted[j]);
    }
  }

  /** The rows come in ascending order of their distinct month keys. */
  lemma OverviewTableOrder<T>(xs: seq<T>, t: Tests<T>)
    ensures forall i, j :: 0 <= i < j < |OverviewTable(xs, t)| ==>
      LexLe(OverviewTable(xs, t)[i].monthKey, OverviewTable(xs, t)[j].monthKey)
      && OverviewTable(xs, t)[i].monthKey != OverviewTable(xs, t)[j].monthKey
  {
    var sorted := Sort(OverviewMonths(xs, t), LexLe);
    var out := OverviewTable(xs, t);
    OverviewMonthsSpec(xs, t);
    SortedStrings(OverviewMonths(xs, t));
    assert forall i :: 0 <= i < |out| ==> out[i].monthKey == sorted[i];
  }

  /** A listed month's row: its own tally, nested band counts, and some activity. */
  lemma OverviewRow<T>(xs: seq<T>, t: Tests<T>, k: string)
    requires forall x :: t.highIncome(x) ==> t.qualified(x)
    requires k in OverviewMonths(xs, t)
    ensures var e := OverviewEntry(xs, t, k);
      e.monthKey == k && e.highIncomeLeads <= e.qualifiedLeads <= e.totalLeads && (e.totalLeads > 0 || e.sales > 0)
  {
    OverviewMonthsSpec(xs, t);
    HighAmongQualified(LeadsIn(xs, t, k), t);
    MonthHasActivity(xs, t, k);
  }

  function LeadsField(e: MonthOverview): nat { e.totalLeads }
  function SalesField(e: MonthOverview): nat { e.sales }

  /** The overview's leads add up to the counted leads. */
  lemma OverviewLeadsTotal<T>(xs: seq<T>, t: Tests<T>)
    ensures SumNat(OverviewTable(xs, t), LeadsField) == |Filter(xs, t.lead)|
  {
    var sorted := Sort(OverviewMonths(xs, t), LexLe);
    OverviewMonthsSpec(xs, t);
    SortedStrings(OverviewMonths(xs, t));
    var leads := Filter(xs, t.lead);
    forall i | 0 <= i < |leads| ensures t.leadMonth(leads[i]) in sorted {
      assert leads[i] in xs && t.lead(leads[i]);
    }
    GroupTotal(leads, t.leadMonth, sorted, OverviewTable(xs, t), LeadsField);
  }

  /** The overview's sales add up to the counted sales. */
  lemma OverviewSalesTotal<T>(xs: seq<T>, t: Tests<T>)
    ensures SumNat(OverviewTable(xs, t), SalesField) == |Filter(xs, t.sale)|
  {
    var sorted := Sort(OverviewMonths(xs, t), LexLe);
    OverviewMonthsSpec(xs, t);
    SortedStrings(OverviewMonths(xs, t));
    var sales := Filter(xs, t.sale);
    forall i | 0 <= i < |sales| ensures t.saleMonth(sales[i]) in sorted {
      assert sales[i] in xs && t.sale(sales[i]);
    }
    GroupTotal(sales, t.saleMonth, sorted, OverviewTable(xs, t), SalesField);
  }

  /** Every high-income answer is a qualified one. */
  lemma DashboardHighQualified(parse: DateParser)
    ensures forall r :: DashboardTests(parse).highIncome(r) ==> DashboardTests(parse).qualified(r)
  {
    forall r | HighIncomeRow(r) ensures QualifiedRow(r) {
      HighIncomeIsQualified(IncomeOf(r));
    }
  }

  /** The dashboard's overview is in strictly ascending order of its months (chronological for
      four-digit years, `Dates.FourDigitMonthKeyOrder`), and each month holds its leads, its
      qualified and high-income leads (nested in that order) and its sales, with a lead or a sale. */
  lemma TemporalOverviewSpec(rows: seq<Row>, parse: DateParser)
    ensures forall i, j :: 0 <= i < j < |OverviewTable(rows, DashboardTests(parse))| ==>
      LexLe(OverviewTable(rows, DashboardTests(parse))[i].monthKey, OverviewTable(rows, DashboardTests(parse))[j].monthKey)
      && OverviewTable(rows, DashboardTests(parse))[i].monthKey != OverviewTable(rows, DashboardTests(parse))[j].monthKey
    ensures forall e :: e in OverviewTable(rows, DashboardTests(parse)) ==>
      e == OverviewEntry(rows, DashboardTests(parse), e.monthKey)
      && e.highIncomeLeads <= e.qualifiedLeads <= e.totalLeads && (e.totalLeads > 0 || e.sales > 0)
  {
    DashboardHighQualified(parse);
    OverviewTableSpec(rows, DashboardTests(parse));
  }

  /** A month is in the dashboard's overview exactly when a row's creation date or a sale's sale
      date falls in it. */
  lemma TemporalOverviewMonths(rows: seq<Row>, parse: DateParser)
    ensures forall k :: k in OverviewMonths(rows, DashboardTests(parse)) <==>
      (exists r :: r in rows && DateOf(parse, LeadDate, r).Some? && MonthOfRow(parse, LeadDate, r) == k)
      || (exists r :: r in rows && IsDatedSale(parse, SaleDate, r) && MonthOfRow(parse, SaleDate, r) == k)
  {
    OverviewMonthsSpec(rows, DashboardTests(parse));
  }

  /** The dashboard overview's leads add up to the rows with a parseable creation date, and its
      sales to the rows with a positive amount and a parseable sale date. */
  lemma TemporalOverviewTotals(rows: seq<Row>, parse: DateParser)
    ensures SumNat(OverviewTable(rows, DashboardTests(parse)), LeadsField) == |Filter(rows, HasDate(parse, LeadDate))|
    ensures SumNat(OverviewTable(rows, DashboardTests(parse)), SalesField) == |Filter(rows, DatedSale(parse, SaleDate))|
  {
    OverviewLeadsTotal(rows, DashboardTests(parse));
    OverviewSalesTotal(rows, DashboardTests(parse));
  }
}
