/** Leads and sales per month and adset (`getTemporalAdsetData`, src/components/Dashboard.tsx):
    a first pass counts each lead in the cell of its month of creation and its adset, a second
    counts each sale in the cell of its month of sale and its adset, and the cells come out in the
    order they were created, stably sorted by month. As with the overview, the table is built and
    proved for any rows and tests (`CellTests`); `DashboardCellTests` are the dashboard's own. */
module AdsetMonths {
  import opened Common
  import opened Seqs
  import opened Sorting
  import opened Columns
  import opened Amounts
  import opened AmountFacts
  import opened Dates
  import opened Grouping
  import opened Ads
  import opened Monthly
  import opened Overview
  import opened Tally

  /** A month and an adset: the pair `${monthKey}|||${adset}` names (see `CellKeysAgree`). */
  datatype Cell = Cell(monthKey: string, adset: string)

  /** `{ monthKey, adset, leads, sales }`. */
  datatype AdsetMonth = AdsetMonth(monthKey: string, adset: string, leads: nat, sales: nat)

  /** What the table reads off a row: whether it is a lead with a month of creation and which,
      whether it is a sale with a month of sale and which, and its adset label. */
  datatype CellTests<!T> = CellTests(
    lead: T -> bool, leadMonth: T -> string, sale: T -> bool, saleMonth: T -> string, adset: T -> string)

  /** `getColumnValue(row, adsetCol) || '—'`. */
  function AdsetLabel(row: Row): string {
    if AdsetOf(row) == "" then "—" else AdsetOf(row)
  }

  /** The dashboard's tests: a lead counts in the month of its `created_time`, a sale when its
      amount is positive, in the month of its sale date, if that parses. */
  function DashboardCellTests(parse: DateParser): CellTests<Row> {
    CellTests(HasDate(parse, LeadDate), RowMonth(parse, LeadDate), DatedSale(parse, SaleDate), RowMonth(parse, SaleDate), AdsetLabel)
  }

  function LeadCell<T>(t: CellTests<T>): T -> Cell {
    x => Cell(t.leadMonth(x), t.adset(x))
  }

  function SaleCell<T>(t: CellTests<T>): T -> Cell {
    x => Cell(t.saleMonth(x), t.adset(x))
  }

  // ----- What the table holds -----

  /** The leads of cell `c`. */
  function LeadsAt<T>(xs: seq<T>, t: CellTests<T>, c: Cell): seq<T> {
    WithKey(Filter(xs, t.lead), LeadCell(t), c)
  }

  /** The sales of cell `c`. */
  function SalesAt<T>(xs: seq<T>, t: CellTests<T>, c: Cell): seq<T> {
    WithKey(Filter(xs, t.sale), SaleCell(t), c)
  }

  /** Cell `c` of the table. */
  function CellEntry<T>(xs: seq<T>, t: CellTests<T>, c: Cell): AdsetMonth {
    AdsetMonth(c.monthKey, c.adset, |LeadsAt(xs, t, c)|, |SalesAt(xs, t, c)|)
  }

  function CellOf<T>(xs: seq<T>, t: CellTests<T>): Cell -> AdsetMonth {
    c => CellEntry(xs, t, c)
  }

  /** The cells in the order they are created: those with a lead, then those with only sales. */
  function Cells<T>(xs: seq<T>, t: CellTests<T>): seq<Cell> {
    NewKeys(KeysOf(xs, t.lead, LeadCell(t)), xs, t.sale, SaleCell(t))
  }

  /** The comparator `a.monthKey.localeCompare(b.monthKey)`, modelled as code-point order. */
  predicate MonthLe(a: AdsetMonth, b: AdsetMonth) {
    LexLe(a.monthKey, b.monthKey)
  }

  /** `Object.values(map).sort(...)`. */
  function AdsetMonthTable<T>(xs: seq<T>, t: CellTests<T>): seq<AdsetMonth> {
    Sort(Map(Cells(xs, t), CellOf(xs, t)), MonthLe)
  }

  // ----- The two loops -----

  /** The entry created for a new cell. */
  function EmptyCell(c: Cell): AdsetMonth {
    AdsetMonth(c.monthKey, c.adset, 0, 0)
  }

  /** `map[key].leads++`. */
  function CountLead<T>(t: CellTests<T>): (AdsetMonth, T) -> AdsetMonth {
    (v: AdsetMonth, x: T) => v.(leads := v.leads + 1)
  }

  /** `map[key].sales++`. */
  function CountSale<T>(t: CellTests<T>): (AdsetMonth, T) -> AdsetMonth {
    (v: AdsetMonth, x: T) => v.(sales := v.sales + 1)
  }

  lemma {:induction false} FoldLeadCounts<T>(t: CellTests<T>, v: AdsetMonth, g: seq<T>)
    ensures Fold(v, g, CountLead(t)) == v.(leads := v.leads + |g|)
    decreases |g|
  {
    if |g| > 0 {
      FoldLeadCounts(t, v, g[..|g| - 1]);
    }
  }

  lemma {:induction false} FoldSaleCounts<T>(t: CellTests<T>, v: AdsetMonth, g: seq<T>)
    ensures Fold(v, g, CountSale(t)) == v.(sales := v.sales + |g|)
    decreases |g|
  {
    if |g| > 0 {
      FoldSaleCounts(t, v, g[..|g| - 1]);
    }
  }

  /** After both passes, every cell holds its entry. */
  lemma CellEntryCorrect<T>(xs: seq<T>, t: CellTests<T>, m1: map<Cell, AdsetMonth>, c: Cell)
    requires forall c' :: c' in m1 <==> c' in KeysOf(xs, t.lead, LeadCell(t))
    requires forall c' :: c' in m1 ==> m1[c'] == Entry(map[], EmptyCell, xs, t.lead, LeadCell(t), CountLead(t), c')
    ensures Entry(m1, EmptyCell, xs, t.sale, SaleCell(t), CountSale(t), c) == CellEntry(xs, t, c)
  {
    var first := EmptyCell(c).(leads := |LeadsAt(xs, t, c)|);
    FoldLeadCounts(t, EmptyCell(c), LeadsAt(xs, t, c));
    if c !in m1 {
      KeysOfMissing(xs, t.lead, LeadCell(t), c);
    }
    assert Start(m1, EmptyCell, c) == first;
    FoldSaleCounts(t, first, SalesAt(xs, t, c));
  }

  /** The two passes of `getTemporalAdsetData` and its read-out, `Object.values` in creation order
      sorted by month. */
  method BuildAdsetMonths<T>(xs: seq<T>, t: CellTests<T>) returns (out: seq<AdsetMonth>)
    ensures out == AdsetMonthTable(xs, t)
  {
    var m1, k1 := TallyAll(map[], [], EmptyCell, xs, t.lead, LeadCell(t), CountLead(t));
    NewKeysEmpty(xs, t.lead, LeadCell(t));
    var m2, k2 := TallyAll(m1, k1, EmptyCell, xs, t.sale, SaleCell(t), CountSale(t));
    forall c | c in k2 ensures c in m2 && m2[c] == CellOf(xs, t)(c) {
      CellEntryCorrect(xs, t, m1, c);
    }
    var values := ReadOut(m2, k2, CellOf(xs, t));
    out := Sort(values, MonthLe);
  }

  /** `getTemporalAdsetData` over the dashboard's rows. */
  method GetTemporalAdsetData(rows: seq<Row>, parse: DateParser) returns (out: seq<AdsetMonth>)
    ensures out == AdsetMonthTable(rows, DashboardCellTests(parse))
  {
    out := BuildAdsetMonths(rows, DashboardCellTests(parse));
  }

  // ----- Properties -----

  function CellField(e: AdsetMonth): Cell { Cell(e.monthKey, e.adset) }
  function CellLeads(e: AdsetMonth): nat { e.leads }
  function CellSales(e: AdsetMonth): nat { e.sales }

  lemma MonthLeTotalPreorder()
    ensures TotalPreorder(MonthLe)
  {
    forall a, b ensures MonthLe(a, b) || MonthLe(b, a) {
      LexLeTotal(a.monthKey, b.monthKey);
    }
    forall a, b, c | MonthLe(a, b) && MonthLe(b, c) ensures MonthLe(a, c) {
      LexLeTrans(a.monthKey, b.monthKey, c.monthKey);
    }
  }

  /** A cell is created exactly when a lead or a sale falls in it, and no cell twice. */
  lemma CellsSpec<T>(xs: seq<T>, t: CellTests<T>)
    ensures NoDuplicates(Cells(xs, t))
    ensures forall c :: c in Cells(xs, t) <==>
      (exists x :: x in xs && t.lead(x) && LeadCell(t)(x) == c) || (exists x :: x in xs && t.sale(x) && SaleCell(t)(x) == c)
  {
    KeysOfSpec(xs, t.lead, LeadCell(t));
    NewKeysSpec(KeysOf(xs, t.lead, LeadCell(t)), xs, t.sale, SaleCell(t));
  }

  /** A cell that has a lead or a sale shows it. */
  lemma CellHasActivity<T>(xs: seq<T>, t: CellTests<T>, c: Cell)
    requires (exists x :: x in xs && t.lead(x) && LeadCell(t)(x) == c) || (exists x :: x in xs && t.sale(x) && SaleCell(t)(x) == c)
    ensures CellEntry(xs, t, c).leads > 0 || CellEntry(xs, t, c).sales > 0
  {
    if exists x :: x in xs && t.lead(x) && LeadCell(t)(x) == c {
      var x :| x in xs && t.lead(x) && LeadCell(t)(x) == c;
      FilterKeeps(xs, t.lead, x);
      WithKeyKeeps(Filter(xs, t.lead), LeadCell(t), c, x);
    } else {
      var x :| x in xs && t.sale(x) && SaleCell(t)(x) == c;
      FilterKeeps(xs, t.sale, x);
      WithKeyKeeps(Filter(xs, t.sale), SaleCell(t), c, x);
    }
  }

  /** The table is sorted by month, names each month and adset once, and holds exactly the
      entries of the created cells. */
  lemma AdsetMonthTableShape<T>(xs: seq<T>, t: CellTests<T>)
    ensures Sorted(AdsetMonthTable(xs, t), MonthLe)
    ensures DistinctKeys(AdsetMonthTable(xs, t), CellField)
    ensures forall e :: e in AdsetMonthTable(xs, t) ==> CellField(e) in Cells(xs, t) && e == CellEntry(xs, t, CellField(e))
    ensures forall c :: c in Cells(xs, t) ==> CellEntry(xs, t, c) in AdsetMonthTable(xs, t)
  {
    CellsSpec(xs, t);
    MonthLeTotalPreorder();
    RankedTable(Cells(xs, t), CellOf(xs, t), CellField, MonthLe);
  }

  /** Every entry of the table has a lead or a sale, and every lead's and every sale's cell is in
      it. */
  lemma AdsetMonthTableSpec<T>(xs: seq<T>, t: CellTests<T>)
    ensures forall e :: e in AdsetMonthTable(xs, t) ==> e.leads > 0 || e.sales > 0
    ensures forall x :: x in xs && t.lead(x) ==> CellEntry(xs, t, LeadCell(t)(x)) in AdsetMonthTable(xs, t)
    ensures forall x :: x in xs && t.sale(x) ==> CellEntry(xs, t, SaleCell(t)(x)) in AdsetMonthTable(xs, t)
  {
    AdsetMonthTableShape(xs, t);
    forall e | e in AdsetMonthTable(xs, t) ensures e.leads > 0 || e.sales > 0 {
      CellsSpec(xs, t);
      CellHasActivity(xs, t, CellField(e));
    }
    forall x | x in xs && t.lead(x) ensures LeadCell(t)(x) in Cells(xs, t) {
      CellsSpec(xs, t);
    }
    forall x | x in xs && t.sale(x) ensures SaleCell(t)(x) in Cells(xs, t) {
      CellsSpec(xs, t);
    }
  }

  /** The leads in the table add up to the counted leads. */
  lemma AdsetMonthLeadsTotal<T>(xs: seq<T>, t: CellTests<T>)
    ensures SumNat(AdsetMonthTable(xs, t), CellLeads) == |Filter(xs, t.lead)|
  {
    var ks := Cells(xs, t);
    CellsSpec(xs, t);
    SortSumNat(Map(ks, CellOf(xs, t)), MonthLe, CellLeads);
    var leads := Filter(xs, t.lead);
    forall i | 0 <= i < |leads| ensures LeadCell(t)(leads[i]) in ks {
      assert leads[i] in xs && t.lead(leads[i]);
    }
    GroupTotal(leads, LeadCell(t), ks, Map(ks, CellOf(xs, t)), CellLeads);
  }

  /** The sales in the table add up to the counted sales. */
  lemma AdsetMonthSalesTotal<T>(xs: seq<T>, t: CellTests<T>)
    ensures SumNat(AdsetMonthTable(xs, t), CellSales) == |Filter(xs, t.sale)|
  {
    var ks := Cells(xs, t);
    CellsSpec(xs, t);
    SortSumNat(Map(ks, CellOf(xs, t)), MonthLe, CellSales);
    var sales := Filter(xs, t.sale);
    forall i | 0 <= i < |sales| ensures SaleCell(t)(sales[i]) in ks {
      assert sales[i] in xs && t.sale(sales[i]);
    }
    GroupTotal(sales, SaleCell(t), ks, Map(ks, CellOf(xs, t)), CellSales);
  }

  // ----- The text key -----

  /** A month key holds digits and minus signs only, so never a `|`. */
  lemma MonthKeyNoBar(d: Date)
    ensures '|' !in MonthKey(d)
  {
    var y := YearText(d.year);
    assert forall i :: 0 <= i < |y| ==> IsDigit(y[i]) || y[i] == '-' by {
      if d.year < 0 {
        assert forall i :: 1 <= i < |y| ==> y[i] == Digits(-d.year)[i - 1];
      }
    }
    var k := MonthKey(d);
    assert forall i :: 0 <= i < |k| ==> IsDigit(k[i]) || k[i] == '-' by {
      assert forall i :: 0 <= i < |y| ==> k[i] == y[i];
      assert k[|y|] == '-' && k[|y| + 1] == Pad2(d.month + 1)[0] && k[|y| + 2] == Pad2(d.month + 1)[1];
    }
  }

  lemma RowMonthNoBar(parse: DateParser, dt: DateType, row: Row)
    ensures '|' !in MonthOfRow(parse, dt, row)
  {
    if DateOf(parse, dt, row).Some? {
      MonthKeyNoBar(DateOf(parse, dt, row).value);
    }
  }

  /** The dashboard's text key `${monthKey}|||${adset}` names the same cell exactly when the month
      and the adset are the same, so keying the cells by the pair changes nothing: no `${ad}|||${adset}`
      style collision can happen here, because month keys never hold a `|`. */
  lemma CellKeysAgree(parse: DateParser, dt1: DateType, r1: Row, dt2: DateType, r2: Row)
    ensures ComboKey(MonthOfRow(parse, dt1, r1), AdsetLabel(r1)) == ComboKey(MonthOfRow(parse, dt2, r2), AdsetLabel(r2))
      <==> Cell(MonthOfRow(parse, dt1, r1), AdsetLabel(r1)) == Cell(MonthOfRow(parse, dt2, r2), AdsetLabel(r2))
  {
    RowMonthNoBar(parse, dt1, r1);
    RowMonthNoBar(parse, dt2, r2);
    ComboKeyInjective(MonthOfRow(parse, dt1, r1), AdsetLabel(r1), MonthOfRow(parse, dt2, r2), AdsetLabel(r2));
  }

  /** The dashboard's table: sorted by month, one entry per month and adset, each entry that
      cell's counts with a lead or a sale, every dated lead's and every dated sale's cell present,
      and the counts adding up to the rows with a parseable creation date and to the rows with a
      positive amount and a parseable sale date. */
  lemma TemporalAdsetSpec(rows: seq<Row>, parse: DateParser)
    ensures Sorted(AdsetMonthTable(rows, DashboardCellTests(parse)), MonthLe)
    ensures DistinctKeys(AdsetMonthTable(rows, DashboardCellTests(parse)), CellField)
    ensures forall e :: e in AdsetMonthTable(rows, DashboardCellTests(parse)) ==>
      e == CellEntry(rows, DashboardCellTests(parse), CellField(e)) && (e.leads > 0 || e.sales > 0)
    ensures SumNat(AdsetMonthTable(rows, DashboardCellTests(parse)), CellLeads) == |Filter(rows, HasDate(parse, LeadDate))|
    ensures SumNat(AdsetMonthTable(rows, DashboardCellTests(parse)), CellSales) == |Filter(rows, DatedSale(parse, SaleDate))|
  {
    AdsetMonthTableShape(rows, DashboardCellTests(parse));
    AdsetMonthTableSpec(rows, DashboardCellTests(parse));
    AdsetMonthLeadsTotal(rows, DashboardCellTests(parse));
    AdsetMonthSalesTotal(rows, DashboardCellTests(parse));
  }
}
