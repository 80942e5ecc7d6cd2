/** The aggregation of `analyze_adset_sales` in check_adset_sales_data.py: the adset names of the
    leads, sorted and distinct, and per adset the lead count, the sales count and revenue of three
    products, their totals, the average ticket and the conversion rate. Cells are read with the
    exact-key resolver and amounts with Python's whole-string `float`. */
module AdsetScript {
  import opened Common
  import opened Seqs
  import opened Sorting
  import opened Columns
  import opened Amounts

  /** The candidate columns, in the order `get_column_value` tries them. */
  const AdsetCol: seq<string> := ["adset_name", "adset", "Adset", "conjunto", "AdsetName"]
  const PlanningCol: seq<string> := ["Venda_planejamento", "Venda_efetuada", "venda_efetuada", "venda", "Venda", "sale", "Sale"]
  const InsuranceCol: seq<string> := ["venda_seguros"]
  const CreditCol: seq<string> := ["venda_credito"]

  /** `get_column_value(lead, adset_col)`. */
  function AdsetName(lead: Row): string {
    PyColumnValue(lead, AdsetCol)
  }

  /** The filter of the `adsets` comprehension: the adset cell is truthy, that is, not empty. */
  predicate HasAdset(lead: Row) {
    AdsetName(lead) != ""
  }

  /** `sorted(list(set(<non-empty adset names>)))`. */
  function Adsets(leads: seq<Row>): seq<string> {
    Sort(KeysOf(leads, HasAdset, AdsetName), LexLe)
  }

  /** The adset list is strictly ascending and holds exactly the non-empty adset names of the leads. */
  lemma AdsetsSpec(leads: seq<Row>)
    ensures Sorted(Adsets(leads), LexLe) && NoDuplicates(Adsets(leads))
    ensures forall a :: a in Adsets(leads) ==> a != ""
    ensures forall a :: a in Adsets(leads) <==> exists i :: 0 <= i < |leads| && AdsetName(leads[i]) == a && a != ""
  {
    var ks := KeysOf(leads, HasAdset, AdsetName);
    KeysOfSpec(leads, HasAdset, AdsetName);
    SortedStrings(ks);
    forall a ensures a in Adsets(leads) <==> exists i :: 0 <= i < |leads| && AdsetName(leads[i]) == a && a != "" {
      if a in ks {
        var x :| x in leads && HasAdset(x) && AdsetName(x) == a;
        var i :| 0 <= i < |leads| && leads[i] == x;
      }
      if exists i :: 0 <= i < |leads| && AdsetName(leads[i]) == a && a != "" {
        var i :| 0 <= i < |leads| && AdsetName(leads[i]) == a && a != "";
        assert leads[i] in leads;
      }
    }
  }

  // ----- `get_sales_and_revenue` -----

  /** `parse_float_value(get_column_value(row, cols))`: the amount a row holds for one product. */
  function ValueIn(cols: seq<string>): Row -> real {
    row => ParseFloatValue(PyColumnValue(row, cols))
  }

  /** The loop's test `val > 0`. */
  function Sold<T>(value: T -> real): T -> bool {
    x => value(x) > 0.0
  }

  datatype Sales = Sales(count: nat, revenue: real)

  /** What the loop of `get_sales_and_revenue` accumulates: the rows with a positive amount, and
      those amounts added up. */
  function SalesOf<T>(rows: seq<T>, value: T -> real): Sales {
    var sold := Filter(rows, Sold(value));
    Sales(|sold|, Sum(sold, value))
  }

  /** `get_sales_and_revenue(leads_list, sales_cols)` as the source runs it, `value` reading a row's
      amount under `sales_cols`. */
  method GetSalesAndRevenue<T>(rows: seq<T>, value: T -> real) returns (s: Sales)
    ensures s == SalesOf(rows, value)
  {
    var count: nat := 0;
    var revenue := 0.0;
    for i := 0 to |rows|
      invariant count == |Filter(rows[..i], Sold(value))|
      invariant revenue == Sum(Filter(rows[..i], Sold(value)), value)
    {
      var row := rows[i];
      TakeSnoc(rows, i);
      FilterSnoc(rows[..i], row, Sold(value));
      var v := value(row);
      assert Sold(value)(row) == (v > 0.0);
      if v > 0.0 {
        assert Filter(rows[..i + 1], Sold(value)) == Filter(rows[..i], Sold(value)) + [row];
        SumSnoc(Filter(rows[..i], Sold(value)), row, value);
        count := count + 1;
        revenue := revenue + v;
      } else {
        assert Filter(rows[..i + 1], Sold(value)) == Filter(rows[..i], Sold(value));
      }
    }
    assert rows[..|rows|] == rows;
    return Sales(count, revenue);
  }

  /** A product's figures over `n` rows as the loop leaves them: no more sales than rows, and a
      revenue that is non-negative and positive exactly when something sold. */
  predicate Consistent(s: Sales, n: nat) {
    s.count <= n && s.revenue >= 0.0 && (s.revenue > 0.0 <==> s.count > 0)
  }

  /** A product's revenue adds only positive amounts; no sales means no row has a positive amount. */
  lemma SalesOfSpec<T>(rows: seq<T>, value: T -> real)
    ensures Consistent(SalesOf(rows, value), |rows|)
    ensures SalesOf(rows, value).count == 0 <==> forall i :: 0 <= i < |rows| ==> value(rows[i]) <= 0.0
  {
    var sold := Filter(rows, Sold(value));
    assert forall i :: 0 <= i < |sold| ==> value(sold[i]) > 0.0 by {
      forall i | 0 <= i < |sold| ensures value(sold[i]) > 0.0 {
        assert sold[i] in sold;
      }
    }
    SumPositive(sold, value);
    if |sold| > 0 {
      assert sold[0] in sold;
      var i :| 0 <= i < |rows| && rows[i] == sold[0];
    } else {
      forall i | 0 <= i < |rows| ensures value(rows[i]) <= 0.0 {
        if value(rows[i]) > 0.0 {
          FilterKeeps(rows, Sold(value), rows[i]);
        }
      }
    }
  }

  // ----- One adset's figures -----

  datatype AdsetSales = AdsetSales(
    adset: string, totalLeads: nat, totalSales: nat, totalRevenue: real, avgTicket: real,
    conversionRate: real, salesPlanejamento: nat, revenuePlanejamento: real,
    salesSeguros: nat, revenueSeguros: real, salesCredito: nat, revenueCredito: real)

  /** `leads_in_adset`: the leads whose adset name is `a`. */
  function LeadsIn(leads: seq<Row>, a: string): seq<Row> {
    WithKey(leads, AdsetName, a)
  }

  /** The dictionary value of an adset with `n` leads, from its three products' figures. */
  function Entry(a: string, n: nat, p: Sales, s: Sales, c: Sales): AdsetSales {
    var ts := p.count + s.count + c.count;
    var tr := p.revenue + s.revenue + c.revenue;
    AdsetSales(a, n, ts, tr, GuardedDiv(tr, ts as real), GuardedPercent(ts as real, n as real),
               p.count, p.revenue, s.count, s.revenue, c.count, c.revenue)
  }

  /** `adset_sales_data[a]`. */
  function EntryOf(leads: seq<Row>, a: string): AdsetSales {
    var ls := LeadsIn(leads, a);
    Entry(a, |ls|, SalesOf(ls, ValueIn(PlanningCol)), SalesOf(ls, ValueIn(InsuranceCol)),
          SalesOf(ls, ValueIn(CreditCol)))
  }

  /** `analyze_adset_sales` after the file is read: one entry per adset, in the sorted order the
      dictionary is filled in. */
  function AdsetTable(leads: seq<Row>): seq<AdsetSales> {
    Map(Adsets(leads), (a: string) => EntryOf(leads, a))
  }

  /** One turn of the loop over `adsets`: the adset's leads, its three products' figures, and the
      dictionary value built from them. */
  method AdsetSalesOf(leads: seq<Row>, a: string) returns (e: AdsetSales)
    ensures e == EntryOf(leads, a)
  {
    var ls := LeadsIn(leads, a);
    var p := GetSalesAndRevenue(ls, ValueIn(PlanningCol));
    var s := GetSalesAndRevenue(ls, ValueIn(InsuranceCol));
    var c := GetSalesAndRevenue(ls, ValueIn(CreditCol));
    e := Entry(a, |ls|, p, s, c);
  }

  /** The loop over `adsets` as the source runs it. */
  method AnalyzeAdsetSales(leads: seq<Row>) returns (out: seq<AdsetSales>)
    ensures out == AdsetTable(leads)
  {
    var adsets := Adsets(leads);
    var entry := (a: string) => EntryOf(leads, a);
    out := [];
    for i := 0 to |adsets|
      invariant out == Map(adsets[..i], entry)
    {
      var e := AdsetSalesOf(leads, adsets[i]);
      TakeSnoc(adsets, i);
      MapSnoc(adsets[..i], adsets[i], entry);
      out := out + [e];
    }
    assert adsets[..|adsets|] == adsets;
  }

  // ----- What the figures promise -----

  /** The guards of one entry: totals over the three products, a zero ticket without sales and a
      zero rate without leads, revenue and ticket positive exactly when something sold, and at most
      three sales per lead. */
  lemma EntrySpec(a: string, n: nat, p: Sales, s: Sales, c: Sales)
    requires Consistent(p, n) && Consistent(s, n) && Consistent(c, n)
    ensures var e := Entry(a, n, p, s, c);
            && e.totalSales == p.count + s.count + c.count
            && e.totalRevenue == p.revenue + s.revenue + c.revenue
            && (e.totalSales == 0 ==> e.avgTicket == 0.0)
            && (e.totalLeads == 0 ==> e.conversionRate == 0.0)
            && e.totalRevenue >= 0.0
            && (e.totalRevenue > 0.0 <==> e.totalSales > 0)
            && (e.avgTicket > 0.0 <==> e.totalSales > 0)
            && e.totalSales <= 3 * e.totalLeads
            && 0.0 <= e.conversionRate <= 300.0
  {
    var e := Entry(a, n, p, s, c);
    if e.totalSales > 0 {
      QuotientPositive(e.totalRevenue, e.totalSales);
    }
    RateBound(e.totalSales, e.totalLeads);
  }

  /** Every adset entry keeps the guards of `EntrySpec`. */
  lemma EntryOfSpec(leads: seq<Row>, a: string)
    ensures var e := EntryOf(leads, a);
            && e.adset == a && e.totalLeads == |LeadsIn(leads, a)|
            && (e.totalSales == 0 ==> e.avgTicket == 0.0)
            && (e.totalLeads == 0 ==> e.conversionRate == 0.0)
            && e.totalRevenue >= 0.0
            && (e.totalRevenue > 0.0 <==> e.totalSales > 0)
            && e.totalSales <= 3 * e.totalLeads
            && 0.0 <= e.conversionRate <= 300.0
  {
    var ls := LeadsIn(leads, a);
    SalesOfSpec(ls, ValueIn(PlanningCol));
    SalesOfSpec(ls, ValueIn(InsuranceCol));
    SalesOfSpec(ls, ValueIn(CreditCol));
    EntrySpec(a, |ls|, SalesOf(ls, ValueIn(PlanningCol)), SalesOf(ls, ValueIn(InsuranceCol)),
              SalesOf(ls, ValueIn(CreditCol)));
  }

  /** At most three sales per lead give a rate of at most 300 per cent. */
  lemma RateBound(sales: nat, leads: nat)
    requires sales <= 3 * leads
    ensures 0.0 <= GuardedPercent(sales as real, leads as real) <= 300.0
  {
    if leads > 0 {
      var q := (sales as real) / (leads as real);
      assert q * (leads as real) == sales as real;
      if q > 3.0 {
        assert (q - 3.0) * (leads as real) > 0.0;
      }
    }
  }

  /** Every lead in the group of a non-empty adset name has that name. */
  lemma GroupOfNamed(leads: seq<Row>, a: string)
    requires a != ""
    ensures LeadsIn(leads, a) == WithKey(Filter(leads, HasAdset), AdsetName, a)
  {
    FilterWithKey(leads, AdsetName, a, HasAdset);
    var g := LeadsIn(leads, a);
    forall i | 0 <= i < |g| ensures HasAdset(g[i]) {
      assert g[i] in g;
    }
    FilterAll(g, HasAdset);
  }

  /** The adsets' lead counts add up to the number of leads with a non-empty adset name: each such
      lead is counted in exactly one adset. */
  lemma AdsetLeadsTotal(leads: seq<Row>)
    ensures SumNat(AdsetTable(leads), (e: AdsetSales) => e.totalLeads) == |Filter(leads, HasAdset)|
  {
    var named := Filter(leads, HasAdset);
    var ks := Adsets(leads);
    var table := AdsetTable(leads);
    AdsetsSpec(leads);
    forall i | 0 <= i < |named| ensures AdsetName(named[i]) in ks {
      assert named[i] in named;
      var j :| 0 <= j < |leads| && leads[j] == named[i];
    }
    forall i | 0 <= i < |ks| ensures table[i].totalLeads == |WithKey(named, AdsetName, ks[i])| {
      assert ks[i] in ks;
      GroupOfNamed(leads, ks[i]);
      EntryOfSpec(leads, ks[i]);
    }
    GroupTotal(named, AdsetName, ks, table, (e: AdsetSales) => e.totalLeads);
  }
}
