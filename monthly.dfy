/** Sales per `YYYY-MM` month of the lead or of the sale (`getSalesDataByDateType` and
    `getTemporalSalesData`, src/components/Dashboard.tsx). */
module Monthly {
  import opened Common
  import opened Seqs
  import opened Sorting
  import opened Columns
  import opened Amounts
  import opened Dates
  import opened Funnel
  import opened Grouping
  import opened Ads
  import opened Tally

  // ----- getSalesDataByDateType -----

  /** Which date a sale is filed under. */
  datatype DateType = LeadDate | SaleDate

  const SaleDateCol: seq<string> := ["Data_da_venda", "data_da_venda", "sale_date"]

  function DateCol(dt: DateType): seq<string> {
    match dt
    case LeadDate => CreatedCol
    case SaleDate => SaleDateCol
  }

  function DateOf(parse: DateParser, dt: DateType, row: Row): Option<Date> {
    parse(ColumnValue(row, DateCol(dt)))
  }

  /** A row that counts: its sale amount is positive and its date parses. */
  predicate IsDatedSale(parse: DateParser, dt: DateType, row: Row) {
    PositiveAmount(row) && DateOf(parse, dt, row).Some?
  }

  /** The month key of a row's date (`''` when it has none; such rows are never counted). */
  function MonthOfRow(parse: DateParser, dt: DateType, row: Row): string {
    match DateOf(parse, dt, row) case Some(d) => MonthKey(d) case None => ""
  }

  function DatedSale(parse: DateParser, dt: DateType): Row -> bool {
    r => IsDatedSale(parse, dt, r)
  }

  function RowMonth(parse: DateParser, dt: DateType): Row -> string {
    r => MonthOfRow(parse, dt, r)
  }

  /** One month of sales: `{ monthKey, salesCount, totalRevenue }`. */
  datatype MonthSales = MonthSales(monthKey: string, salesCount: nat, totalRevenue: real)


  /** The bucket of key `k`: the elements of `xs` that pass `p` and have key `k`, counted, and the
      sum of their amounts under `f`. */
  function Bucket<T>(xs: seq<T>, p: T -> bool, key: T -> string, f: T -> real, k: string): MonthSales {
    var g := WithKey(Filter(xs, p), key, k);
    MonthSales(k, |g|, Sum(g, f))
  }

  function BucketOf<T>(xs: seq<T>, p: T -> bool, key: T -> string, f: T -> real): string -> MonthSales {
    k => Bucket(xs, p, key, f, k)
  }

  /** `Object.keys(monthly).sort().map(k => monthly[k])`: the buckets in the order of their sorted
      keys. */
  function BucketTable<T>(xs: seq<T>, p: T -> bool, key: T -> string, f: T -> real): seq<MonthSales> {
    Map(Sort(KeysOf(xs, p, key), LexLe), BucketOf(xs, p, key, f))
  }

  /** The entry `getSalesDataByDateType` creates for a new month... */
  function NoSales(k: string): MonthSales {
    MonthSales(k, 0, 0.0)
  }

  /** ...and the update each counted row makes to it (`salesCount++`, `totalRevenue += saleValue`). */
  function AddSale<T>(f: T -> real): (MonthSales, T) -> MonthSales {
    (v: MonthSales, x: T) => MonthSales(v.monthKey, v.salesCount + 1, v.totalRevenue + f(x))
  }

  /** Applying the updates of a group to the new entry counts the group and sums its amounts. */
  lemma {:induction false} FoldSales<T>(k: string, g: seq<T>, f: T -> real)
    ensures Fold(NoSales(k), g, AddSale(f)) == MonthSales(k, |g|, Sum(g, f))
    decreases |g|
  {
    if |g| > 0 {
      var init, last := g[..|g| - 1], g[|g| - 1];
      FoldSales(k, init, f);
      assert g == init + [last];
      SumSnoc(init, last, f);
    }
  }

  /** The dictionary the loop fills holds the buckets. */
  lemma SalesEntry<T>(xs: seq<T>, p: T -> bool, key: T -> string, f: T -> real, k: string)
    ensures Entry(map[], NoSales, xs, p, key, AddSale(f), k) == Bucket(xs, p, key, f, k)
  {
    FoldSales(k, WithKey(Filter(xs, p), key, k), f);
  }

  function BucketCount(e: MonthSales): nat { e.salesCount }

  /** The keys of the table are strictly ascending. */
  lemma BucketsOrdered<T>(xs: seq<T>, p: T -> bool, key: T -> string, f: T -> real)
    ensures forall i, j :: 0 <= i < j < |BucketTable(xs, p, key, f)| ==>
      LexLe(BucketTable(xs, p, key, f)[i].monthKey, BucketTable(xs, p, key, f)[j].monthKey)
      && BucketTable(xs, p, key, f)[i].monthKey != BucketTable(xs, p, key, f)[j].monthKey
  {
    var ks := KeysOf(xs, p, key);
    KeysOfSpec(xs, p, key);
    SortedStrings(ks);
  }

  /** Each entry is the bucket of its key, and holds at least one element. */
  lemma BucketsEntries<T>(xs: seq<T>, p: T -> bool, key: T -> string, f: T -> real)
    ensures forall e :: e in BucketTable(xs, p, key, f) ==> e == Bucket(xs, p, key, f, e.monthKey) && e.salesCount > 0
  {
    var ks := KeysOf(xs, p, key);
    var sorted := Sort(ks, LexLe);
    var out := BucketTable(xs, p, key, f);
    forall e | e in out ensures e == Bucket(xs, p, key, f, e.monthKey) && e.salesCount > 0 {
      var j :| 0 <= j < |out| && out[j] == e;
      var k := sorted[j];
      assert k in ks by { SortMember(ks, LexLe, k); }
      KeysOfSpec(xs, p, key);
      var x :| x in xs && p(x) && key(x) == k;
      FilterKeeps(xs, p, x);
      WithKeyKeeps(Filter(xs, p), key, k, x);
    }
  }

  /** Every counted element's bucket is in the table. */
  lemma BucketsCover<T>(xs: seq<T>, p: T -> bool, key: T -> string, f: T -> real)
    ensures forall x :: x in xs && p(x) ==> Bucket(xs, p, key, f, key(x)) in BucketTable(xs, p, key, f)
  {
    var ks := KeysOf(xs, p, key);
    var sorted := Sort(ks, LexLe);
    forall x | x in xs && p(x) ensures Bucket(xs, p, key, f, key(x)) in BucketTable(xs, p, key, f) {
      KeysOfSpec(xs, p, key);
      SortMember(ks, LexLe, key(x));
      var j :| 0 <= j < |sorted| && sorted[j] == key(x);
      assert BucketTable(xs, p, key, f)[j] == Bucket(xs, p, key, f, key(x));
    }
  }

  /** The counts of the table add up to the counted elements. */
  lemma BucketsTotal<T>(xs: seq<T>, p: T -> bool, key: T -> string, f: T -> real)
    ensures SumNat(BucketTable(xs, p, key, f), BucketCount) == |Filter(xs, p)|
  {
    var ks := KeysOf(xs, p, key);
    var sorted := Sort(ks, LexLe);
    var counted := Filter(xs, p);
    KeysOfSpec(xs, p, key);
    SortedStrings(ks);
    forall i | 0 <= i < |counted| ensures key(counted[i]) in sorted {
      assert counted[i] in xs && p(counted[i]);
    }
    GroupTotal(counted, key, sorted, BucketTable(xs, p, key, f), BucketCount);
  }

  /** With amounts positive on every counted element, every entry's total is positive. */
  lemma BucketsRevenue<T>(xs: seq<T>, p: T -> bool, key: T -> string, f: T -> real)
    requires forall x :: p(x) ==> f(x) > 0.0
    ensures forall e :: e in BucketTable(xs, p, key, f) ==> e.totalRevenue > 0.0
  {
    BucketsEntries(xs, p, key, f);
    forall e | e in BucketTable(xs, p, key, f) ensures e.totalRevenue > 0.0 {
      var g := WithKey(Filter(xs, p), key, e.monthKey);
      assert forall i :: 0 <= i < |g| ==> f(g[i]) > 0.0 by {
        forall i | 0 <= i < |g| ensures f(g[i]) > 0.0 {
          assert g[i] in g;
        }
      }
      SumPositive(g, f);
    }
  }

  /** The entry of month `k`: the counted rows filed under `k` and their revenue. */
  function MonthEntry(rows: seq<Row>, parse: DateParser, dt: DateType, k: string): MonthSales {
    Bucket(rows, DatedSale(parse, dt), RowMonth(parse, dt), SaleAmount, k)
  }

  /** The months that have a counted row, in order of first appearance (the keys of `monthly`). */
  function SaleMonths(rows: seq<Row>, parse: DateParser, dt: DateType): seq<string> {
    KeysOf(rows, DatedSale(parse, dt), RowMonth(parse, dt))
  }

  /** The table `getSalesDataByDateType` returns. */
  function SalesByMonth(rows: seq<Row>, parse: DateParser, dt: DateType): seq<MonthSales> {
    BucketTable(rows, DatedSale(parse, dt), RowMonth(parse, dt), SaleAmount)
  }

  /** The loop of `getSalesDataByDateType` and its read-out, for any test, key and amount: every
      element that passes adds one sale and its amount to the entry of its key, which is created on
      the key's first appearance; the entries are read out in the order of the sorted keys. */
  method TallySales<T>(xs: seq<T>, p: T -> bool, key: T -> string, f: T -> real) returns (out: seq<MonthSales>)
    ensures out == BucketTable(xs, p, key, f)
  {
    var monthly, keys := TallyAll(map[], [], NoSales, xs, p, key, AddSale(f));
    NewKeysEmpty(xs, p, key);
    var sorted := Sort(keys, LexLe);
    forall k | k in sorted ensures k in monthly && monthly[k] == BucketOf(xs, p, key, f)(k) {
      SortMember(keys, LexLe, k);
      SalesEntry(xs, p, key, f, k);
    }
    out := ReadOut(monthly, sorted, BucketOf(xs, p, key, f));
  }

  /** `getSalesDataByDateType`: the rows with a positive sale amount and a parseable date of the
      chosen kind, counted and summed per month of that date. */
  method GetSalesDataByDateType(rows: seq<Row>, parse: DateParser, dt: DateType) returns (out: seq<MonthSales>)
    ensures out == SalesByMonth(rows, parse, dt)
  {
    out := TallySales(rows, DatedSale(parse, dt), RowMonth(parse, dt), SaleAmount);
  }

  /** The monthly sales table: months strictly ascending in string order (which is chronological
      for four-digit years, `Dates.FourDigitMonthKeyOrder`), one entry per month that has a
      counted sale, each holding that month's count (at least one) and revenue (positive), and the
      counts adding up to the counted rows. */
  lemma SalesByMonthSpec(rows: seq<Row>, parse: DateParser, dt: DateType)
    ensures forall i, j :: 0 <= i < j < |SalesByMonth(rows, parse, dt)| ==>
      LexLe(SalesByMonth(rows, parse, dt)[i].monthKey, SalesByMonth(rows, parse, dt)[j].monthKey)
      && SalesByMonth(rows, parse, dt)[i].monthKey != SalesByMonth(rows, parse, dt)[j].monthKey
    ensures forall e :: e in SalesByMonth(rows, parse, dt) ==>
      e == MonthEntry(rows, parse, dt, e.monthKey) && e.salesCount > 0 && e.totalRevenue > 0.0
    ensures forall r :: r in rows && IsDatedSale(parse, dt, r) ==>
      MonthEntry(rows, parse, dt, MonthOfRow(parse, dt, r)) in SalesByMonth(rows, parse, dt)
    ensures SumNat(SalesByMonth(rows, parse, dt), BucketCount) == |Filter(rows, DatedSale(parse, dt))|
  {
    var p, key := DatedSale(parse, dt), RowMonth(parse, dt);
    BucketsOrdered(rows, p, key, SaleAmount);
    BucketsEntries(rows, p, key, SaleAmount);
    BucketsRevenue(rows, p, key, SaleAmount);
    BucketsCover(rows, p, key, SaleAmount);
    BucketsTotal(rows, p, key, SaleAmount);
  }

  // ----- getTemporalSalesData -----

  /** A month of sales with its average ticket. */
  datatype MonthTicket = MonthTicket(monthKey: string, salesCount: nat, totalRevenue: real, avgTicket: real)

  /** `avgTicket: item.salesCount > 0 ? item.totalRevenue / item.salesCount : 0`. */
  function WithTicket(e: MonthSales): MonthTicket {
    MonthTicket(e.monthKey, e.salesCount, e.totalRevenue, GuardedDiv(e.totalRevenue, e.salesCount as real))
  }

  /** `getTemporalSalesData`: the monthly table by sale date, each month with its average ticket. */
  function TemporalSales(rows: seq<Row>, parse: DateParser): seq<MonthTicket> {
    Map(SalesByMonth(rows, parse, SaleDate), WithTicket)
  }

  /** Over months that each have a sale and a positive revenue, every average ticket is positive
      and is the revenue shared out over the sales. */
  lemma TicketsSpec(table: seq<MonthSales>)
    requires forall e :: e in table ==> e.salesCount > 0 && e.totalRevenue > 0.0
    ensures forall t :: t in Map(table, WithTicket) ==> t.avgTicket > 0.0 && t.avgTicket * t.salesCount as real == t.totalRevenue
  {
    forall t | t in Map(table, WithTicket) ensures t.avgTicket > 0.0 && t.avgTicket * t.salesCount as real == t.totalRevenue {
      var i :| 0 <= i < |table| && Map(table, WithTicket)[i] == t;
      assert table[i] in table;
      TicketOf(table[i].totalRevenue, table[i].salesCount);
    }
  }

  /** The months are those of the sale-date table, in its order, with its counts and revenues,
      and every month's average ticket is positive and is its revenue shared out over its sales. */
  lemma TemporalSalesSpec(rows: seq<Row>, parse: DateParser)
    ensures |TemporalSales(rows, parse)| == |SalesByMonth(rows, parse, SaleDate)|
    ensures forall i :: 0 <= i < |TemporalSales(rows, parse)| ==>
      TemporalSales(rows, parse)[i].monthKey == SalesByMonth(rows, parse, SaleDate)[i].monthKey
      && TemporalSales(rows, parse)[i].salesCount == SalesByMonth(rows, parse, SaleDate)[i].salesCount
      && TemporalSales(rows, parse)[i].totalRevenue == SalesByMonth(rows, parse, SaleDate)[i].totalRevenue
    ensures forall t :: t in TemporalSales(rows, parse) ==> t.avgTicket > 0.0 && t.avgTicket * t.salesCount as real == t.totalRevenue
  {
    SalesByMonthSpec(rows, parse, SaleDate);
    TicketsSpec(SalesByMonth(rows, parse, SaleDate));
  }
}
