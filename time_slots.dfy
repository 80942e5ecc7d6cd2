/** Leads by weekday and by hour of creation (`getWeekdayAnalysis` and `getHourlyAnalysis`,
    src/components/Dashboard.tsx): a fixed array of slots, one per weekday or hour, into which each
    lead with a parseable creation date is counted, with its qualified and high-income answers
    and, if it carries a positive sale amount, its sale; then each slot's rates. The slots are
    built and proved for any rows and tests (`SlotTests`). */
module TimeSlots {
  import opened Common
  import opened Seqs
  import opened Columns
  import opened AmountFacts
  import opened Dates
  import opened Income
  import opened Grouping
  import opened Ads
  import opened Monthly
  import opened Overview

  /** What the slots read off a row: whether it is a lead with a creation date, its slot, whether
      it is qualified and high-income, whether it has a sale, and its amount. */
  datatype SlotTests<!T> = SlotTests(
    lead: T -> bool, slot: T -> nat, qualified: T -> bool, highIncome: T -> bool, sale: T -> bool, amount: T -> real)

  /** `{ totalLeads, qualifiedLeads, highIncomeLeads, sales, totalRevenue }` of slot `index`. */
  datatype Slot = Slot(index: nat, totalLeads: nat, qualifiedLeads: nat, highIncomeLeads: nat, sales: nat, totalRevenue: real)

  /** The initial slot, `Array(n).fill(0).map((_, i) => ...)`. */
  function EmptySlot(j: nat): Slot {
    Slot(j, 0, 0, 0, 0, 0.0)
  }

  /** One lead counted into its slot. */
  function AddToSlot<T>(t: SlotTests<T>, v: Slot, x: T): Slot {
    Slot(v.index, v.totalLeads + 1, v.qualifiedLeads + Flag(t.qualified(x)), v.highIncomeLeads + Flag(t.highIncome(x)),
         v.sales + Flag(t.sale(x)), v.totalRevenue + (if t.sale(x) then t.amount(x) else 0.0))
  }

  /** The leads of slot `j`. */
  function LeadsAt<T>(xs: seq<T>, t: SlotTests<T>, j: nat): seq<T> {
    WithKey(Filter(xs, t.lead), t.slot, j)
  }

  /** Slot `j` holding the leads `g`: their number, the qualified and high-income ones, the ones
      with a sale, and the sum of their amounts. */
  function SlotOf<T>(t: SlotTests<T>, j: nat, g: seq<T>): Slot {
    Slot(j, |g|, |Filter(g, t.qualified)|, |Filter(g, t.highIncome)|, |Filter(g, t.sale)|, Sum(Filter(g, t.sale), t.amount))
  }

  /** Slot `j` after the loop. */
  function SlotEntry<T>(xs: seq<T>, t: SlotTests<T>, j: nat): Slot {
    SlotOf(t, j, LeadsAt(xs, t, j))
  }

  /** The `n` slots after the loop. */
  function Slots<T>(xs: seq<T>, t: SlotTests<T>, n: nat): (r: seq<Slot>)
    ensures |r| == n && forall j :: 0 <= j < n ==> r[j] == SlotEntry(xs, t, j)
  {
    seq(n, (j: int) requires 0 <= j => SlotEntry(xs, t, j))
  }

  /** Counting one more lead into a slot. */
  lemma SlotOfSnoc<T>(t: SlotTests<T>, j: nat, g: seq<T>, x: T)
    ensures SlotOf(t, j, g + [x]) == AddToSlot(t, SlotOf(t, j, g), x)
  {
    FilterSnoc(g, x, t.qualified);
    FilterSnoc(g, x, t.highIncome);
    FilterSnoc(g, x, t.sale);
    if t.sale(x) {
      SumSnoc(Filter(g, t.sale), x, t.amount);
    } else {
      assert Filter(g, t.sale) + [] == Filter(g, t.sale);
    }
  }

  /** One more row changes only the slot of a lead, by counting the lead into it. */
  lemma SlotEntrySnoc<T>(xs: seq<T>, x: T, t: SlotTests<T>, j: nat)
    ensures SlotEntry(xs + [x], t, j) == if t.lead(x) && t.slot(x) == j then AddToSlot(t, SlotEntry(xs, t, j), x) else SlotEntry(xs, t, j)
  {
    GroupSnoc(xs, x, t.lead, t.slot, j);
    var g := LeadsAt(xs, t, j);
    if t.lead(x) && t.slot(x) == j {
      SlotOfSnoc(t, j, g, x);
    } else {
      assert g + [] == g;
    }
  }

  /** The slots after one more row: the lead's slot counts it, the others stay. */
  lemma SlotsSnoc<T>(xs: seq<T>, x: T, t: SlotTests<T>, n: nat)
    requires t.lead(x) ==> t.slot(x) < n
    ensures Slots(xs + [x], t, n) == if t.lead(x) then Slots(xs, t, n)[t.slot(x) := AddToSlot(t, Slots(xs, t, n)[t.slot(x)], x)] else Slots(xs, t, n)
  {
    forall j | 0 <= j < n ensures Slots(xs + [x], t, n)[j] == (if t.lead(x) then Slots(xs, t, n)[t.slot(x) := AddToSlot(t, Slots(xs, t, n)[t.slot(x)], x)] else Slots(xs, t, n))[j] {
      SlotEntrySnoc(xs, x, t, j);
    }
  }

  /** The loop of `getWeekdayAnalysis` / `getHourlyAnalysis` over an array of `n` slots: each lead
      is counted into the slot its date gives. */
  method CountSlots<T>(xs: seq<T>, t: SlotTests<T>, n: nat) returns (out: seq<Slot>)
    requires forall x :: x in xs && t.lead(x) ==> t.slot(x) < n
    ensures out == Slots(xs, t, n)
  {
    var a := new Slot[n](EmptySlot);
    assert a[..] == Slots([], t, n);
    for i := 0 to |xs|
      invariant a[..] == Slots(xs[..i], t, n)
    {
      var x := xs[i];
      assert x in xs;
      SlotsSnoc(xs[..i], x, t, n);
      TakeSnoc(xs, i);
      if t.lead(x) {
        var s := t.slot(x);
        a[s] := AddToSlot(t, a[s], x);
      }
    }
    assert xs[..|xs|] == xs;
    out := a[..];
  }

  // ----- Rates -----

  /** A slot with its label, `qualifiedRate`, `highIncomeRate`, `conversionRate` and `avgTicket`. */
  datatype SlotReport = SlotReport(name: string, slot: Slot, qualifiedRate: real, highIncomeRate: real,
                                   conversionRate: real, avgTicket: real)

  /** `{ ...day, qualifiedRate, highIncomeRate, conversionRate, avgTicket }`, each rate 0 when the
      slot has no lead and the ticket 0 when it has no sale. */
  function Rated(name: string, s: Slot): SlotReport {
    SlotReport(name, s,
      GuardedPercent(s.qualifiedLeads as real, s.totalLeads as real),
      GuardedPercent(s.highIncomeLeads as real, s.totalLeads as real),
      GuardedPercent(s.sales as real, s.totalLeads as real),
      GuardedDiv(s.totalRevenue, s.sales as real))
  }

  // ----- Properties of the slots -----

  function SlotLeads(s: Slot): nat { s.totalLeads }
  function SlotSales(s: Slot): nat { s.sales }

  function Range(n: nat): (r: seq<nat>)
    ensures |r| == n && forall j :: 0 <= j < n ==> r[j] == j
  {
    seq(n, j => j)
  }

  /** A lead lands in its own slot and in no other. */
  lemma LeadInOneSlot<T>(xs: seq<T>, t: SlotTests<T>, x: T, j: nat)
    requires x in xs && t.lead(x)
    ensures x in LeadsAt(xs, t, j) <==> j == t.slot(x)
  {
    if j == t.slot(x) {
      FilterKeeps(xs, t.lead, x);
      WithKeyKeeps(Filter(xs, t.lead), t.slot, j, x);
    }
  }

  /** Keeping one key and keeping one kind commute. */
  lemma {:induction false} FilterWithKey<T, K>(xs: seq<T>, key: T -> K, k: K, p: T -> bool)
    ensures Filter(WithKey(xs, key, k), p) == WithKey(Filter(xs, p), key, k)
  {
    if |xs| > 0 {
      FilterWithKey(xs[1..], key, k, p);
      var head := if key(xs[0]) == k then [xs[0]] else [];
      FilterAppend(head, WithKey(xs[1..], key, k), p);
      var kept := if p(xs[0]) then [xs[0]] else [];
      assert WithKey(kept + Filter(xs[1..], p), key, k) == WithKey(kept, key, k) + WithKey(Filter(xs[1..], p), key, k) by {
        if |kept| == 0 {
          assert kept + Filter(xs[1..], p) == Filter(xs[1..], p);
        } else {
          assert (kept + Filter(xs[1..], p))[1..] == Filter(xs[1..], p);
        }
      }
      if |head| > 0 {
        assert head[1..] == [];
      }
      if |kept| > 0 {
        assert kept[1..] == [];
      }
    }
  }

  /** A slot holding leads `g` has no more high-income than qualified leads (when every
      high-income lead is qualified), no more qualified leads or sales than leads, and, when every
      sale's amount is positive, revenue exactly when it has a sale. */
  lemma SlotOfBounds<T>(t: SlotTests<T>, j: nat, g: seq<T>)
    requires forall x :: t.highIncome(x) ==> t.qualified(x)
    requires forall x :: t.sale(x) ==> t.amount(x) > 0.0
    ensures SlotOf(t, j, g).highIncomeLeads <= SlotOf(t, j, g).qualifiedLeads <= SlotOf(t, j, g).totalLeads
    ensures SlotOf(t, j, g).sales <= SlotOf(t, j, g).totalLeads
    ensures SlotOf(t, j, g).totalRevenue > 0.0 <==> SlotOf(t, j, g).sales > 0
  {
    FilterMonotone(g, t.highIncome, t.qualified);
    var sold := Filter(g, t.sale);
    if |sold| > 0 {
      forall i | 0 <= i < |sold| ensures t.amount(sold[i]) > 0.0 {
        assert sold[i] in sold;
      }
      SumPositive(sold, t.amount);
    } else {
      assert sold == [];
    }
  }

  /** There are `n` slots, slot `j` in place `j` holding its leads, and each slot keeps the bounds
      of `SlotOfBounds`. */
  lemma SlotsSpec<T>(xs: seq<T>, t: SlotTests<T>, n: nat)
    requires forall x :: t.highIncome(x) ==> t.qualified(x)
    requires forall x :: t.sale(x) ==> t.amount(x) > 0.0
    ensures |Slots(xs, t, n)| == n
    ensures forall j :: 0 <= j < n ==> Slots(xs, t, n)[j].index == j && Slots(xs, t, n)[j].totalLeads == |LeadsAt(xs, t, j)|
    ensures forall s :: s in Slots(xs, t, n) ==>
      s.highIncomeLeads <= s.qualifiedLeads <= s.totalLeads && s.sales <= s.totalLeads
      && (s.totalRevenue > 0.0 <==> s.sales > 0)
  {
    forall s | s in Slots(xs, t, n) ensures s.highIncomeLeads <= s.qualifiedLeads <= s.totalLeads && s.sales <= s.totalLeads
      && (s.totalRevenue > 0.0 <==> s.sales > 0) {
      var j :| 0 <= j < n && Slots(xs, t, n)[j] == s;
      SlotOfBounds(t, j, LeadsAt(xs, t, j));
    }
  }

  /** The slots' leads add up to all leads: every lead is in exactly one slot. */
  lemma SlotsLeadsTotal<T>(xs: seq<T>, t: SlotTests<T>, n: nat)
    requires forall x :: x in xs && t.lead(x) ==> t.slot(x) < n
    ensures SumNat(Slots(xs, t, n), SlotLeads) == |Filter(xs, t.lead)|
  {
    var ks := Range(n);
    var leads := Filter(xs, t.lead);
    forall i | 0 <= i < |leads| ensures t.slot(leads[i]) in ks {
      assert leads[i] in xs && t.lead(leads[i]);
      assert ks[t.slot(leads[i])] == t.slot(leads[i]);
    }
    GroupTotal(leads, t.slot, ks, Slots(xs, t, n), SlotLeads);
  }

  lemma SlotSalesAt<T>(xs: seq<T>, t: SlotTests<T>, n: nat, j: nat)
    requires j < n
    ensures SlotSales(Slots(xs, t, n)[j]) == |WithKey(Filter(Filter(xs, t.lead), t.sale), t.slot, j)|
  {
    FilterWithKey(Filter(xs, t.lead), t.slot, j, t.sale);
  }

  /** The slots' sales add up to the leads with a sale. */
  lemma SlotsSalesTotal<T>(xs: seq<T>, t: SlotTests<T>, n: nat)
    requires forall x :: x in xs && t.lead(x) ==> t.slot(x) < n
    ensures SumNat(Slots(xs, t, n), SlotSales) == |Filter(Filter(xs, t.lead), t.sale)|
  {
    var ks := Range(n);
    var leads := Filter(xs, t.lead);
    var sold := Filter(leads, t.sale);
    forall i | 0 <= i < |sold| ensures t.slot(sold[i]) in ks {
      assert sold[i] in leads;
      assert sold[i] in xs && t.lead(sold[i]);
      assert ks[t.slot(sold[i])] == t.slot(sold[i]);
    }
    forall j | 0 <= j < n ensures SlotSales(Slots(xs, t, n)[j]) == |WithKey(sold, t.slot, ks[j])| {
      SlotSalesAt(xs, t, n, j);
    }
    GroupTotal(sold, t.slot, ks, Slots(xs, t, n), SlotSales);
  }

  /** Every rate lies between 0 and 100; the ticket is 0 without a sale and otherwise the revenue
      per sale, positive when the revenue is. */
  lemma RatedSpec(name: string, s: Slot)
    requires s.highIncomeLeads <= s.totalLeads && s.qualifiedLeads <= s.totalLeads && s.sales <= s.totalLeads
    requires s.totalRevenue > 0.0 <==> s.sales > 0
    ensures 0.0 <= Rated(name, s).qualifiedRate <= 100.0
    ensures 0.0 <= Rated(name, s).highIncomeRate <= 100.0
    ensures 0.0 <= Rated(name, s).conversionRate <= 100.0
    ensures s.totalLeads == 0 ==> Rated(name, s).qualifiedRate == 0.0 && Rated(name, s).conversionRate == 0.0
    ensures s.sales == 0 ==> Rated(name, s).avgTicket == 0.0
    ensures s.sales > 0 ==> Rated(name, s).avgTicket > 0.0 && Rated(name, s).avgTicket * s.sales as real == s.totalRevenue
  {
    PercentOfCount(s.qualifiedLeads, s.totalLeads);
    PercentOfCount(s.highIncomeLeads, s.totalLeads);
    PercentOfCount(s.sales, s.totalLeads);
    TicketOf(s.totalRevenue, s.sales);
  }

  // ----- The dashboard's weekdays and hours -----

  const Weekdays: seq<string> := ["Domingo", "Segunda", "Terça", "Quarta", "Quinta", "Sexta", "Sábado"]

  /** `getDay()` of the row's creation date (0 for Sunday); 0 when it does not parse, which is
      never read. */
  function LeadWeekday(parse: DateParser): Row -> nat {
    r => WeekdayOf(parse(ColumnValue(r, DateCol(LeadDate))))
  }

  function WeekdayOf(o: Option<Date>): nat {
    if o.Some? then o.value.weekday else 0
  }

  /** `getHours()` of the row's creation date; 0 when it does not parse, which is never read. */
  function LeadHour(parse: DateParser): Row -> nat {
    r => HourOf(parse(ColumnValue(r, DateCol(LeadDate))))
  }

  function HourOf(o: Option<Date>): nat {
    if o.Some? then o.value.hour else 0
  }

  function PositiveOf(): Row -> bool {
    r => PositiveAmount(r)
  }

  /** The dashboard's tests with the slot a row's date gives. */
  function DashboardSlotTests(parse: DateParser, slot: Row -> nat): SlotTests<Row> {
    SlotTests(HasDate(parse, LeadDate), slot, QualifiedRow, HighIncomeRow, PositiveOf(), SaleAmount)
  }

  /** `${i.toString().padStart(2, '0')}:00`. */
  function HourLabel(i: nat): (s: string)
    requires i < 24
    ensures |s| == 5 && s[2..] == ":00"
  {
    Pad2(i) + ":00"
  }

  function WeekdayReport(s: Slot): SlotReport {
    Rated(if s.index < 7 then Weekdays[s.index] else "", s)
  }

  function HourReport(s: Slot): SlotReport {
    Rated(if s.index < 24 then HourLabel(s.index) else "", s)
  }

  /** What `getWeekdayAnalysis` returns. */
  function WeekdayAnalysis(rows: seq<Row>, parse: DateParser): seq<SlotReport> {
    Map(Slots(rows, DashboardSlotTests(parse, LeadWeekday(parse)), 7), WeekdayReport)
  }

  /** What `getHourlyAnalysis` returns. */
  function HourlyAnalysis(rows: seq<Row>, parse: DateParser): seq<SlotReport> {
    Map(Slots(rows, DashboardSlotTests(parse, LeadHour(parse)), 24), HourReport)
  }

  method GetWeekdayAnalysis(rows: seq<Row>, parse: DateParser) returns (out: seq<SlotReport>)
    ensures out == WeekdayAnalysis(rows, parse)
  {
    var slots := CountSlots(rows, DashboardSlotTests(parse, LeadWeekday(parse)), 7);
    out := Map(slots, WeekdayReport);
  }

  method GetHourlyAnalysis(rows: seq<Row>, parse: DateParser) returns (out: seq<SlotReport>)
    ensures out == HourlyAnalysis(rows, parse)
  {
    var slots := CountSlots(rows, DashboardSlotTests(parse, LeadHour(parse)), 24);
    out := Map(slots, HourReport);
  }

  /** The dashboard's tests meet the requirements of `SlotsSpec` for any slot. */
  lemma DashboardSlotFacts(parse: DateParser, slot: Row -> nat)
    ensures forall x :: DashboardSlotTests(parse, slot).highIncome(x) ==> DashboardSlotTests(parse, slot).qualified(x)
    ensures forall x :: DashboardSlotTests(parse, slot).sale(x) ==> DashboardSlotTests(parse, slot).amount(x) > 0.0
  {
    DashboardHighQualified(parse);
  }

  /** Seven weekdays, named Sunday first, each with its rates; their leads add up to the rows with
      a parseable creation date and their sales to those rows with a positive amount. */
  lemma WeekdayAnalysisSpec(rows: seq<Row>, parse: DateParser)
    ensures |WeekdayAnalysis(rows, parse)| == 7
    ensures forall j :: 0 <= j < 7 ==> (WeekdayAnalysis(rows, parse)[j].name == Weekdays[j]
      && WeekdayAnalysis(rows, parse)[j].slot.index == j
      && 0.0 <= WeekdayAnalysis(rows, parse)[j].qualifiedRate <= 100.0
      && 0.0 <= WeekdayAnalysis(rows, parse)[j].highIncomeRate <= 100.0
      && 0.0 <= WeekdayAnalysis(rows, parse)[j].conversionRate <= 100.0
      && WeekdayAnalysis(rows, parse)[j].slot.highIncomeLeads <= WeekdayAnalysis(rows, parse)[j].slot.qualifiedLeads)
    ensures SumNat(Slots(rows, DashboardSlotTests(parse, LeadWeekday(parse)), 7), SlotLeads) == |Filter(rows, HasDate(parse, LeadDate))|
    ensures SumNat(Slots(rows, DashboardSlotTests(parse, LeadWeekday(parse)), 7), SlotSales)
      == |Filter(Filter(rows, HasDate(parse, LeadDate)), PositiveOf())|
  {
    var t := DashboardSlotTests(parse, LeadWeekday(parse));
    DashboardSlotFacts(parse, LeadWeekday(parse));
    SlotsSpec(rows, t, 7);
    forall j | 0 <= j < 7 ensures 0.0 <= WeekdayAnalysis(rows, parse)[j].qualifiedRate <= 100.0
      && 0.0 <= WeekdayAnalysis(rows, parse)[j].highIncomeRate <= 100.0
      && 0.0 <= WeekdayAnalysis(rows, parse)[j].conversionRate <= 100.0 {
      var s := Slots(rows, t, 7)[j];
      assert s in Slots(rows, t, 7);
      RatedSpec(Weekdays[j], s);
    }
    SlotsLeadsTotal(rows, t, 7);
    SlotsSalesTotal(rows, t, 7);
  }

  /** Twenty-four hours labelled `00:00` to `23:00`, each with its rates; their leads add up to the
      rows with a parseable creation date and their sales to those rows with a positive amount. */
  lemma HourlyAnalysisSpec(rows: seq<Row>, parse: DateParser)
    ensures |HourlyAnalysis(rows, parse)| == 24
    ensures forall j :: 0 <= j < 24 ==> (HourlyAnalysis(rows, parse)[j].name == HourLabel(j)
      && HourlyAnalysis(rows, parse)[j].slot.index == j
      && 0.0 <= HourlyAnalysis(rows, parse)[j].qualifiedRate <= 100.0
      && 0.0 <= HourlyAnalysis(rows, parse)[j].highIncomeRate <= 100.0
      && 0.0 <= HourlyAnalysis(rows, parse)[j].conversionRate <= 100.0
      && HourlyAnalysis(rows, parse)[j].slot.highIncomeLeads <= HourlyAnalysis(rows, parse)[j].slot.qualifiedLeads)
    ensures SumNat(Slots(rows, DashboardSlotTests(parse, LeadHour(parse)), 24), SlotLeads) == |Filter(rows, HasDate(parse, LeadDate))|
    ensures SumNat(Slots(rows, DashboardSlotTests(parse, LeadHour(parse)), 24), SlotSales)
      == |Filter(Filter(rows, HasDate(parse, LeadDate)), PositiveOf())|
  {
    var t := DashboardSlotTests(parse, LeadHour(parse));
    DashboardSlotFacts(parse, LeadHour(parse));
    SlotsSpec(rows, t, 24);
    forall j | 0 <= j < 24 ensures 0.0 <= HourlyAnalysis(rows, parse)[j].qualifiedRate <= 100.0
      && 0.0 <= HourlyAnalysis(rows, parse)[j].highIncomeRate <= 100.0
      && 0.0 <= HourlyAnalysis(rows, parse)[j].conversionRate <= 100.0 {
      var s := Slots(rows, t, 24)[j];
      assert s in Slots(rows, t, 24);
      RatedSpec(HourLabel(j), s);
    }
    SlotsLeadsTotal(rows, t, 24);
    SlotsSalesTotal(rows, t, 24);
  }
}
