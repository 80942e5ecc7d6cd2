/** The dashboard's headline figures (src/components/Dashboard.tsx): the sale test, the unique-buyer
    counts, the zero-guarded funnel ratios over the campaign's fixed LTV and margin, and the
    least-squares trendline of the charts. */
module Funnel {
  import opened Common
  import opened Text
  import opened Seqs
  import opened Columns
  import opened Amounts
  import opened Csv

  // ----- Sales -----

  /** The sale columns, in the order `getColumnValue` tries them. */
  const SalesCol: seq<string> := ["Venda_planejamento", "Venda_efetuada", "venda_efetuada", "venda", "Venda", "sale", "Sale"]

  /** `hasValidSale(row)`. */
  predicate HasValidSale(row: Row) {
    IsPositiveSale(ColumnValue(row, SalesCol))
  }

  /** `salesFromCSV`: how many rows carry a valid sale. */
  function SalesFromCsv(rows: seq<Row>): nat {
    |Filter(rows, HasValidSale)|
  }

  /** The sales count is the number of rows whose sale cell `extractValue` reads as positive, and
      never more than the rows. */
  lemma SalesFromCsvSpec(rows: seq<Row>)
    ensures SalesFromCsv(rows) <= |rows|
    ensures SalesFromCsv(rows) == |Filter(rows, (r: Row) => ExtractValue(ColumnValue(r, SalesCol)) > 0.0)|
  {
    var p := (r: Row) => ExtractValue(ColumnValue(r, SalesCol)) > 0.0;
    forall i | 0 <= i < |rows| ensures HasValidSale(rows[i]) == p(rows[i]) {
      SaleIffPositiveValue(ColumnValue(rows[i], SalesCol));
    }
    FilterCongruent(rows, HasValidSale, p);
  }

  // ----- Unique buyers -----

  /** The product tests of `uniqueBuyers`: a positive amount under `Venda_planejamento`,
      `venda_seguros` or `venda_credito`. */
  predicate BoughtPlan(row: Row) {
    IsPositiveSale(ColumnValue(row, ["Venda_planejamento"]))
  }

  predicate BoughtAny(row: Row) {
    BoughtPlan(row)
    || IsPositiveSale(ColumnValue(row, ["venda_seguros"]))
    || IsPositiveSale(ColumnValue(row, ["venda_credito"]))
  }

  /** The buyer key as the source writes it: `row.email || ''`, the value under the exact key
      `email`. */
  function RawEmail(row: Row): string {
    Field(row, "email")
  }

  /** `uniqueBuyers` as written: the size of the set of `row.email || ''` over the buying rows. */
  function UniqueBuyersAsWritten(rows: seq<Row>): nat {
    |KeySet(Filter(rows, BoughtAny), RawEmail)|
  }

  /** `uniquePlanejamentoBuyers` as written, keyed by `row.email || ''` like `uniqueBuyers`. */
  function UniquePlanBuyersAsWritten(rows: seq<Row>): nat {
    |KeySet(Filter(rows, BoughtPlan), RawEmail)|
  }

  /** `uniqueBuyers` keyed by the e-mail the reader accepted the row for (trimmed, lower-cased), as
      every other use of the e-mail in the dashboard resolves it. */
  function UniqueBuyers(rows: seq<Row>): nat {
    |KeySet(Filter(rows, BoughtAny), EmailKey)|
  }

  /** `uniquePlanejamentoBuyers`, keyed like `UniqueBuyers`. */
  function UniquePlanBuyers(rows: seq<Row>): nat {
    |KeySet(Filter(rows, BoughtPlan), EmailKey)|
  }

  /** Planning buyers are among the buyers, and there are no more buyers than buying rows. */
  lemma BuyerBounds(rows: seq<Row>)
    ensures UniquePlanBuyers(rows) <= UniqueBuyers(rows) <= |Filter(rows, BoughtAny)| <= |rows|
  {
    KeySetFilterMonotone(rows, BoughtPlan, BoughtAny, EmailKey);
    KeySetSize(Filter(rows, BoughtAny), EmailKey);
  }

  /** The same bounds hold for the counts as written: the key does not change which rows buy. */
  lemma BuyerBoundsAsWritten(rows: seq<Row>)
    ensures UniquePlanBuyersAsWritten(rows) <= UniqueBuyersAsWritten(rows) <= |Filter(rows, BoughtAny)| <= |rows|
  {
    KeySetFilterMonotone(rows, BoughtPlan, BoughtAny, RawEmail);
    KeySetSize(Filter(rows, BoughtAny), RawEmail);
  }

  /** Over the leads the reader returns, whose e-mails are distinct, every buying lead is one
      buyer. */
  lemma BuyersOfLeads(text: string, leads: seq<Row>)
    requires CsvRows(text) == Ok(leads)
    ensures UniqueBuyers(leads) == |Filter(leads, BoughtAny)|
    ensures UniquePlanBuyers(leads) == |Filter(leads, BoughtPlan)|
  {
    LeadsSpec(text, leads);
    FilterDistinctKeys(leads, BoughtAny, EmailKey);
    KeySetDistinct(Filter(leads, BoughtAny), EmailKey);
    FilterDistinctKeys(leads, BoughtPlan, EmailKey);
    KeySetDistinct(Filter(leads, BoughtPlan), EmailKey);
  }

  /** As written, rows without an `email` key all count as the one buyer `''`, and as the one
      planning buyer when one of them bought a plan. */
  lemma AsWrittenCollapses(rows: seq<Row>)
    requires forall i :: 0 <= i < |rows| ==> !HasKey(rows[i], "email")
    requires exists i :: 0 <= i < |rows| && BoughtAny(rows[i])
    ensures UniqueBuyersAsWritten(rows) == 1
    ensures (exists i :: 0 <= i < |rows| && BoughtPlan(rows[i])) ==> UniquePlanBuyersAsWritten(rows) == 1
  {
    NoEmailKeyBlank(rows);
    FilteredKeySetsConstant(rows, BoughtAny, BoughtPlan, RawEmail, "");
  }

  /** Without an `email` key, `row.email || ''` is `''`. */
  lemma NoEmailKeyBlank(rows: seq<Row>)
    requires forall i :: 0 <= i < |rows| ==> !HasKey(rows[i], "email")
    ensures forall r :: r in rows ==> RawEmail(r) == ""
  {
    forall r | r in rows ensures RawEmail(r) == "" {
      var k :| 0 <= k < |rows| && rows[k] == r;
      assert Lookup(r, "email") == None;
    }
  }

  /** A file whose e-mail header is `Email` (or any accepted spelling but `email`) with buyers in
      it: the dashboard as written reports one unique buyer, however many leads bought. */
  lemma AsWrittenMiscountsCapitalisedHeader(text: string, leads: seq<Row>)
    requires CsvRows(text) == Ok(leads)
    requires DataLines(text) != []
    requires "email" !in HeaderKeys(DataLines(text)[0], Delimiter(DataLines(text)[0]))
    requires exists i :: 0 <= i < |leads| && BoughtAny(leads[i])
    ensures UniqueBuyersAsWritten(leads) == 1
    ensures UniqueBuyers(leads) == |Filter(leads, BoughtAny)|
  {
    LeadKeys(text, leads, "email");
    assert forall i :: 0 <= i < |leads| ==> leads[i] in leads;
    AsWrittenCollapses(leads);
    BuyersOfLeads(text, leads);
  }

  // ----- Funnel ratios -----

  /** The campaign figures typed into the dashboard (or extracted from the file). */
  datatype Inputs = Inputs(verbaGasta: real, reunioesAgendadas: real, reunioesRealizadas: real)

  const LtvFixo: real := 8723.24
  const MargemBrutaFixa: real := 58.72

  /** `ltgp`, the gross profit per customer over its lifetime. */
  const Ltgp: real := (LtvFixo * MargemBrutaFixa) / 100.0

  datatype Ratios = Ratios(
    cac: real, ltgp: real, ltgpCac: real, taxaLeadReuniao: real, taxaReuniaoVenda: real,
    taxaRealizacaoReuniao: real, taxaLeadVenda: real, custoPerLead: real)

  /** The funnel ratios for `totalLeads` leads, `buyers` unique buyers and `planBuyers` unique
      planning buyers. */
  function FunnelRatios(m: Inputs, totalLeads: nat, buyers: nat, planBuyers: nat): (r: Ratios)
    ensures buyers == 0 ==> r.cac == 0.0 && r.ltgpCac == 0.0
    ensures buyers > 0 ==> r.cac * buyers as real == m.verbaGasta
    ensures totalLeads == 0 ==> r.taxaLeadReuniao == 0.0 && r.taxaLeadVenda == 0.0 && r.custoPerLead == 0.0
    ensures m.reunioesAgendadas <= 0.0 ==> r.taxaReuniaoVenda == 0.0 && r.taxaRealizacaoReuniao == 0.0
    ensures r.ltgp == Ltgp
  {
    var cac := GuardedDiv(m.verbaGasta, buyers as real);
    Ratios(
      cac,
      Ltgp,
      GuardedDiv(Ltgp, cac),
      GuardedPercent(m.reunioesAgendadas, totalLeads as real),
      GuardedPercent(planBuyers as real, m.reunioesAgendadas),
      GuardedPercent(m.reunioesRealizadas, m.reunioesAgendadas),
      GuardedPercent(planBuyers as real, totalLeads as real),
      GuardedDiv(m.verbaGasta, totalLeads as real))
  }

  /** The fixed lifetime gross profit. */
  lemma LtgpValue()
    ensures Ltgp == 5122.286528
  {
  }

  /** With money spent and buyers found, LTGP/CAC is the gross profit the buyers bring per real
      spent; with nothing spent it is 0. */
  lemma LtgpCacReturn(m: Inputs, totalLeads: nat, buyers: nat, planBuyers: nat)
    requires buyers > 0
    ensures m.verbaGasta > 0.0 ==> FunnelRatios(m, totalLeads, buyers, planBuyers).ltgpCac == Ltgp * buyers as real / m.verbaGasta
    ensures m.verbaGasta <= 0.0 ==> FunnelRatios(m, totalLeads, buyers, planBuyers).ltgpCac == 0.0
  {
    var cac := m.verbaGasta / buyers as real;
    assert cac * buyers as real == m.verbaGasta;
    if m.verbaGasta > 0.0 {
      assert cac > 0.0;
      assert (Ltgp / cac) * m.verbaGasta == Ltgp * buyers as real;
    }
  }

  /** The dashboard's ratios as written, over buyers keyed by `row.email || ''`. */
  function DashboardRatiosAsWritten(m: Inputs, rows: seq<Row>): Ratios {
    FunnelRatios(m, |rows|, UniqueBuyersAsWritten(rows), UniquePlanBuyersAsWritten(rows))
  }

  /** The dashboard's ratios over the filtered rows, with buyers keyed by the accepted e-mail. */
  function DashboardRatios(m: Inputs, rows: seq<Row>): Ratios {
    FunnelRatios(m, |rows|, UniqueBuyers(rows), UniquePlanBuyers(rows))
  }

  /** Over any rows the lead-to-sale rate is a percentage, as written and keyed by e-mail. */
  lemma LeadToSaleIsPercentage(m: Inputs, rows: seq<Row>)
    ensures 0.0 <= DashboardRatios(m, rows).taxaLeadVenda <= 100.0
    ensures 0.0 <= DashboardRatiosAsWritten(m, rows).taxaLeadVenda <= 100.0
  {
    BuyerBounds(rows);
    BuyerBoundsAsWritten(rows);
    PercentBounds(UniquePlanBuyers(rows) as real, |rows| as real);
    PercentBounds(UniquePlanBuyersAsWritten(rows) as real, |rows| as real);
  }

  /** On a file whose e-mail header is not spelled `email`, with buyers in it, the dashboard as
      written charges the whole budget to one customer, while keyed by e-mail the budget is shared
      among the buying leads. */
  lemma AsWrittenCacIsWholeBudget(m: Inputs, text: string, leads: seq<Row>)
    requires CsvRows(text) == Ok(leads)
    requires DataLines(text) != []
    requires "email" !in HeaderKeys(DataLines(text)[0], Delimiter(DataLines(text)[0]))
    requires exists i :: 0 <= i < |leads| && BoughtAny(leads[i])
    ensures DashboardRatiosAsWritten(m, leads).cac == m.verbaGasta
    ensures |Filter(leads, BoughtAny)| > 0 && DashboardRatios(m, leads).cac == m.verbaGasta / |Filter(leads, BoughtAny)| as real
  {
    AsWrittenMiscountsCapitalisedHeader(text, leads);
    BuyersPositive(leads);
    CacOfOneBuyer(m, leads);
    CacPerUniqueBuyer(m, leads);
  }

  /** One buyer, as written, carries the whole budget. */
  lemma CacOfOneBuyer(m: Inputs, rows: seq<Row>)
    requires UniqueBuyersAsWritten(rows) == 1
    ensures DashboardRatiosAsWritten(m, rows).cac == m.verbaGasta
  {
    var r := FunnelRatios(m, |rows|, 1, UniquePlanBuyersAsWritten(rows));
    assert r.cac * 1.0 == m.verbaGasta;
  }

  /** Keyed by e-mail, the budget is shared among the unique buyers. */
  lemma CacPerUniqueBuyer(m: Inputs, rows: seq<Row>)
    requires UniqueBuyers(rows) > 0
    ensures DashboardRatios(m, rows).cac == m.verbaGasta / UniqueBuyers(rows) as real
  {
    CacPerBuyer(m, |rows|, UniqueBuyers(rows), UniquePlanBuyers(rows));
  }

  /** CAC is the budget per buyer, when there is a buyer. */
  lemma CacPerBuyer(m: Inputs, totalLeads: nat, buyers: nat, planBuyers: nat)
    requires buyers > 0
    ensures FunnelRatios(m, totalLeads, buyers, planBuyers).cac == m.verbaGasta / buyers as real
  {
  }

  /** A buying row makes at least one buyer, however buyers are keyed. */
  lemma BuyersPositive(rows: seq<Row>)
    requires exists i :: 0 <= i < |rows| && BoughtAny(rows[i])
    ensures UniqueBuyersAsWritten(rows) > 0 && UniqueBuyers(rows) > 0
  {
    var i :| 0 <= i < |rows| && BoughtAny(rows[i]);
    FilteredKeySetHas(rows, BoughtAny, RawEmail, rows[i]);
    FilteredKeySetHas(rows, BoughtAny, EmailKey, rows[i]);
  }
}
