/** The campaign figures `extractManualDataFromCSV` of src/services/dataService.ts derives from the
    lead rows (scalars from the first row that carries them, per-product counts and revenue over
    every row), and the lead mapping `saveLeads` applies before storing rows. */
module Campaign {
  import opened Common
  import opened Text
  import opened Seqs
  import opened Columns
  import opened Amounts
  import opened Funnel

  // ----- The campaign row -----

  /** `lead.verba_gasta || lead.churn || lead.Reunioes_Agendadas || lead.Reunioes_Realizadas` is
      truthy: one of the four campaign cells is present and not empty. */
  predicate HasCampaignData(row: Row) {
    Field(row, "verba_gasta") != "" || Field(row, "churn") != ""
    || Field(row, "Reunioes_Agendadas") != "" || Field(row, "Reunioes_Realizadas") != ""
  }

  /** The index the search stops at, from `j` on: the first row with campaign data, or |leads|. */
  function FirstFrom(leads: seq<Row>, j: nat): (i: nat)
    requires j <= |leads|
    ensures j <= i <= |leads|
    ensures forall l :: j <= l < i ==> !HasCampaignData(leads[l])
    ensures i < |leads| ==> HasCampaignData(leads[i])
    decreases |leads| - j
  {
    if j == |leads| then j
    else if HasCampaignData(leads[j]) then j
    else FirstFrom(leads, j + 1)
  }

  /** `campaignLead` after the search: the first row with campaign data, if any. */
  function CampaignLead(leads: seq<Row>): (r: Option<Row>)
    ensures r.None? <==> forall i :: 0 <= i < |leads| ==> !HasCampaignData(leads[i])
    ensures r.Some? ==> exists i :: 0 <= i < |leads| && r.value == leads[i] && HasCampaignData(leads[i])
                                    && forall l :: 0 <= l < i ==> !HasCampaignData(leads[l])
  {
    var i := FirstFrom(leads, 0);
    if i < |leads| then Some(leads[i]) else None
  }

  /** The search as the source runs it: a loop that stops at the first row with campaign data. */
  method FindCampaignLead(leads: seq<Row>) returns (r: Option<Row>)
    ensures r == CampaignLead(leads)
  {
    r := None;
    for i := 0 to |leads|
      invariant r.None?
      invariant FirstFrom(leads, 0) == FirstFrom(leads, i)
    {
      if HasCampaignData(leads[i]) {
        r := Some(leads[i]);
        break;
      }
    }
  }

  /** The search skips every row before the first one with campaign data, whatever follows it. */
  lemma {:induction false} FirstCampaignRow(pre: seq<Row>, c: Row, post: seq<Row>)
    requires forall i :: 0 <= i < |pre| ==> !HasCampaignData(pre[i])
    requires HasCampaignData(c)
    ensures CampaignLead(pre + [c] + post) == Some(c)
  {
    var leads := pre + [c] + post;
    var i := FirstFrom(leads, 0);
    assert leads[|pre|] == c;
    assert forall l :: 0 <= l < |pre| ==> leads[l] == pre[l];
  }

  // ----- The campaign scalars -----

  /** `s || d` on a cell: the cell, or `d` when it is empty. */
  function OrElse(s: string, d: string): string {
    if s == "" then d else s
  }

  /** `parseFloat(<clean-up of (verba_gasta || '0')>) || 0`. */
  function VerbaGasta(c: Row): real {
    JsAmount(OrElse(Field(c, "verba_gasta"), "0"))
  }

  /** `parseFloat(churn || '0') || 0`: the churn cell is parsed without the locale clean-up. */
  function ChurnRate(c: Row): real {
    JsParseFloat(OrElse(Field(c, "churn"), "0")).GetOr(0.0)
  }

  /** `parseInt(<cell k> || '0') || 0`. */
  function Meetings(c: Row, k: string): int {
    JsParseInt(OrElse(Field(c, k), "0")).GetOr(0)
  }

  // ----- The per-product aggregates -----

  /** The product columns, in the order the extractor's `getColumnValue` tries them. */
  const PlanningCol: seq<string> := ["Venda_planejamento", "venda_efetuada", "Venda_efetuada", "venda", "Venda", "sale", "Sale"]
  const InsuranceCol: seq<string> := ["venda_seguros", "seguros", "Seguros"]
  const CreditCol: seq<string> := ["venda_credito", "credito", "Credito"]
  const OtherCol: seq<string> := ["venda_outros", "Outros_Produtos", "outros_produtos", "Outros"]

  /** `extractValue(getColumnValue(lead, cols))`: the amount a row holds for one product. */
  function ValueIn(cols: seq<string>): Row -> real {
    row => ExtractValue(ColumnValue(row, cols))
  }

  /** The test of `countSalesFlexible`: the row's amount for the product is positive. */
  function SoldIn(cols: seq<string>): Row -> bool {
    row => ValueIn(cols)(row) > 0.0
  }

  /** `leads.reduce((total, lead) => total + extractValue(getColumnValue(lead, cols)), 0)`. */
  function Revenue(leads: seq<Row>, cols: seq<string>): real {
    Sum(leads, ValueIn(cols))
  }

  /** `countSalesFlexible(cols)`. */
  function SalesCount(leads: seq<Row>, cols: seq<string>): nat {
    |Filter(leads, SoldIn(cols))|
  }

  datatype CampaignData = CampaignData(
    ltv: real, margemBruta: real, verbaGasta: real,
    vendasEfetuadas: nat, vendasPlanejamento: nat, vendasSeguros: nat, vendasCredito: nat, vendasOutros: nat,
    faturamentoTotal: real, faturamentoPlanejamento: real, faturamentoSeguros: real,
    faturamentoCredito: real, faturamentoOutros: real,
    churnRate: real, reunioesAgendadas: int, reunioesRealizadas: int)

  /** The object the extractor returns once it has found the campaign row `c`. */
  function Figures(leads: seq<Row>, c: Row): CampaignData {
    var vp := SalesCount(leads, PlanningCol);
    var vs := SalesCount(leads, InsuranceCol);
    var vc := SalesCount(leads, CreditCol);
    var vo := SalesCount(leads, OtherCol);
    var fp := Revenue(leads, PlanningCol);
    var fs := Revenue(leads, InsuranceCol);
    var fc := Revenue(leads, CreditCol);
    var fo := Revenue(leads, OtherCol);
    CampaignData(LtvFixo, MargemBrutaFixa, VerbaGasta(c),
                 vp + vs + vc + vo, vp, vs, vc, vo,
                 fp + fs + fc + fo, fp, fs, fc, fo,
                 ChurnRate(c), Meetings(c, "Reunioes_Agendadas"), Meetings(c, "Reunioes_Realizadas"))
  }

  /** `extractManualDataFromCSV(leads)`, None standing for `null`: nothing for an empty list or one
      without a campaign row, else the fixed LTV and margin, the first campaign row's scalars and
      the per-product figures of every row. */
  function ExtractManualData(leads: seq<Row>): (r: Option<CampaignData>)
    ensures r.None? <==> forall i :: 0 <= i < |leads| ==> !HasCampaignData(leads[i])
    ensures r.Some? ==> r.value.ltv == 8723.24 && r.value.margemBruta == 58.72
    ensures r.Some? ==> CampaignLead(leads).Some? && r.value == Figures(leads, CampaignLead(leads).value)
  {
    if |leads| == 0 then None
    else
      match CampaignLead(leads)
      case None => None
      case Some(c) => Some(Figures(leads, c))
  }

  /** The extractor as the source runs it: the empty-input test, the search loop, then the
      aggregates. */
  method ExtractManualDataFromCsv(leads: seq<Row>) returns (r: Option<CampaignData>)
    ensures r == ExtractManualData(leads)
  {
    if |leads| == 0 {
      return None;
    }
    var c := FindCampaignLead(leads);
    if c.None? {
      return None;
    }
    return Some(Figures(leads, c.value));
  }

  // ----- What the figures promise -----

  /** The campaign scalars are those of the first campaign row: rows after it never change them. */
  lemma CampaignScalarsFromFirstRow(pre: seq<Row>, c: Row, post: seq<Row>)
    requires forall i :: 0 <= i < |pre| ==> !HasCampaignData(pre[i])
    requires HasCampaignData(c)
    ensures ExtractManualData(pre + [c] + post).Some?
    ensures var d := ExtractManualData(pre + [c] + post).value;
            d.verbaGasta == VerbaGasta(c) && d.churnRate == ChurnRate(c)
            && d.reunioesAgendadas == Meetings(c, "Reunioes_Agendadas")
            && d.reunioesRealizadas == Meetings(c, "Reunioes_Realizadas")
  {
    FirstCampaignRow(pre, c, post);
  }

  /** Counts and revenue are taken over every row: they add up over any split of the rows. */
  lemma ProductFiguresAppend(xs: seq<Row>, ys: seq<Row>, cols: seq<string>)
    ensures SalesCount(xs + ys, cols) == SalesCount(xs, cols) + SalesCount(ys, cols)
    ensures Revenue(xs + ys, cols) == Revenue(xs, cols) + Revenue(ys, cols)
  {
    FilterAppend(xs, ys, SoldIn(cols));
    SumAppend(xs, ys, ValueIn(cols));
  }

  /** A product's count is the number of rows whose amount for it is positive. */
  lemma {:induction false} SalesCountSpec(leads: seq<Row>, cols: seq<string>)
    ensures SalesCount(leads, cols) <= |leads|
    ensures SalesCount(leads, cols) == 0 <==> forall i :: 0 <= i < |leads| ==> ValueIn(cols)(leads[i]) <= 0.0
  {
    if |leads| > 0 {
      SalesCountSpec(leads[1..], cols);
      assert forall i :: 0 < i < |leads| ==> leads[i] == leads[1..][i - 1];
    }
  }

  /** With no negative amount in the rows, a product's revenue is non-negative, and it is positive
      exactly when the product sold at least once. */
  lemma {:induction false} RevenueOfSales(leads: seq<Row>, cols: seq<string>)
    requires forall i :: 0 <= i < |leads| ==> ValueIn(cols)(leads[i]) >= 0.0
    ensures Revenue(leads, cols) >= 0.0
    ensures Revenue(leads, cols) > 0.0 <==> SalesCount(leads, cols) > 0
  {
    if |leads| > 0 {
      assert forall i :: 0 <= i < |leads[1..]| ==> leads[1..][i] == leads[i + 1];
      RevenueOfSales(leads[1..], cols);
    }
  }

  /** The extractor's per-product sale test is the dashboard's `hasValidSale` test on the same
      column list: both count the same rows. */
  lemma SalesCountIsDashboardTest(leads: seq<Row>, cols: seq<string>)
    ensures SalesCount(leads, cols) == |Filter(leads, (row: Row) => IsPositiveSale(ColumnValue(row, cols)))|
  {
    forall i | 0 <= i < |leads|
      ensures SoldIn(cols)(leads[i]) <==> IsPositiveSale(ColumnValue(leads[i], cols))
    {
      var v := ColumnValue(leads[i], cols);
      assert ValueIn(cols)(leads[i]) == ExtractValue(v);
      assert SoldIn(cols)(leads[i]) == (ExtractValue(v) > 0.0);
      SaleIffPositiveValue(v);
    }
    FilterCongruent(leads, SoldIn(cols), (row: Row) => IsPositiveSale(ColumnValue(row, cols)));
  }

  /** The number of the four products a row bought. */
  function ProductsBought(row: Row): nat {
    (if SoldIn(PlanningCol)(row) then 1 else 0) + (if SoldIn(InsuranceCol)(row) then 1 else 0)
    + (if SoldIn(CreditCol)(row) then 1 else 0) + (if SoldIn(OtherCol)(row) then 1 else 0)
  }

  /** The amount a row holds over the four products. */
  function RowRevenue(row: Row): real {
    ValueIn(PlanningCol)(row) + ValueIn(InsuranceCol)(row) + ValueIn(CreditCol)(row) + ValueIn(OtherCol)(row)
  }

  /** One row more at the front of a product's figures. */
  lemma ProductFiguresCons(leads: seq<Row>, cols: seq<string>)
    requires |leads| > 0
    ensures SalesCount(leads, cols) == (if SoldIn(cols)(leads[0]) then 1 else 0) + SalesCount(leads[1..], cols)
    ensures Revenue(leads, cols) == ValueIn(cols)(leads[0]) + Revenue(leads[1..], cols)
  {
  }

  /** The four product counts, added up, are the row-by-row count of products bought. */
  lemma {:induction false} CountsByRow(leads: seq<Row>)
    ensures SalesCount(leads, PlanningCol) + SalesCount(leads, InsuranceCol) + SalesCount(leads, CreditCol)
            + SalesCount(leads, OtherCol) == SumNat(leads, ProductsBought)
  {
    if |leads| > 0 {
      CountsByRow(leads[1..]);
      ProductFiguresCons(leads, PlanningCol);
      ProductFiguresCons(leads, InsuranceCol);
      ProductFiguresCons(leads, CreditCol);
      ProductFiguresCons(leads, OtherCol);
    }
  }

  /** The four product revenues, added up, are the row-by-row sum of the amounts. */
  lemma {:induction false} RevenuesByRow(leads: seq<Row>)
    ensures Revenue(leads, PlanningCol) + Revenue(leads, InsuranceCol) + Revenue(leads, CreditCol)
            + Revenue(leads, OtherCol) == Sum(leads, RowRevenue)
  {
    if |leads| > 0 {
      RevenuesByRow(leads[1..]);
      ProductFiguresCons(leads, PlanningCol);
      ProductFiguresCons(leads, InsuranceCol);
      ProductFiguresCons(leads, CreditCol);
      ProductFiguresCons(leads, OtherCol);
    }
  }

  /** `vendas_efetuadas` and `faturamento_total`, added up product by product, are the row-by-row
      totals: every row contributes the products it bought and their amounts. */
  lemma TotalsByRow(leads: seq<Row>, c: Row)
    ensures Figures(leads, c).vendasEfetuadas == SumNat(leads, ProductsBought)
    ensures Figures(leads, c).faturamentoTotal == Sum(leads, RowRevenue)
  {
    CountsByRow(leads);
    RevenuesByRow(leads);
  }

  /** No row is counted for more than the four products. */
  lemma {:induction false} SalesAtMostFourPerRow(leads: seq<Row>, c: Row)
    ensures Figures(leads, c).vendasEfetuadas <= 4 * |leads|
  {
    TotalsByRow(leads, c);
    ProductsBoughtBound(leads);
  }

  lemma {:induction false} ProductsBoughtBound(leads: seq<Row>)
    ensures SumNat(leads, ProductsBought) <= 4 * |leads|
  {
    if |leads| > 0 {
      ProductsBoughtBound(leads[1..]);
    }
  }

  // ----- The lead mapping of `saveLeads` -----

  /** `toDateOrNull`: None for an empty or blank value, else the value itself. */
  function ToDateOrNull(value: string): (r: Option<string>)
    ensures r.None? <==> Trim(value) == ""
    ensures r.Some? ==> r.value == value
  {
    if value == "" || Trim(value) == "" then None else Some(value)
  }

  /** A row of the `leads` table as `saveLeads` writes it. */
  datatype LeadRecord = LeadRecord(
    nome: string, email: string, telefone: string, renda: string, qualSuaRendaMensal: string,
    dataDaVenda: string, vendaPlanejamento: string, venda: string, sale: string, saleEfetuada: string,
    vendaSeguros: string, vendaCredito: string,
    churnValue: Option<real>, churnDate: Option<string>, vendaOutros: Option<real>,
    adsetName: string, adset: string, adName: string, ad: string,
    campaignName: string, campaign: string, platform: string, createdTime: string,
    rawData: Row, createdAt: string)

  /** The mapping lambda of `saveLeads`; `now` is `new Date().toISOString()`. */
  function MapLead(lead: Row, now: string): (m: LeadRecord)
    ensures m.venda == m.vendaPlanejamento && m.sale == m.vendaPlanejamento && m.saleEfetuada == m.vendaPlanejamento
    ensures m.vendaPlanejamento == Field(lead, "Venda_planejamento")
    ensures m.rawData == lead && m.telefone == "" && m.createdAt == now
    ensures m.renda == m.qualSuaRendaMensal && m.adset == m.adsetName && m.ad == m.adName
    ensures m.campaign == m.campaignName
    ensures m.campaignName == "" <==> Field(lead, "campaign_name") == "" && Field(lead, "campaign") == ""
    ensures m.churnValue.Some? ==> Trim(Field(lead, "churn")) != "" && m.churnValue.value == JsAmount(Field(lead, "churn"))
  {
    var plan := Field(lead, "Venda_planejamento");
    var income := Field(lead, "qual_sua_renda_mensal?");
    var camp := OrElse(Field(lead, "campaign_name"), Field(lead, "campaign"));
    LeadRecord(
      Field(lead, "nome_completo"), Field(lead, "email"), "", income, income,
      Field(lead, "Data_da_venda"), plan, plan, plan, plan,
      Field(lead, "venda_seguros"), Field(lead, "venda_credito"),
      ToNumericOrNull(Field(lead, "churn")), ToDateOrNull(Field(lead, "Data_do_churn")),
      ToNumericOrNull(Field(lead, "Outros_Produtos")),
      Field(lead, "adset_name"), Field(lead, "adset_name"), Field(lead, "ad_name"), Field(lead, "ad_name"),
      camp, camp, Field(lead, "platform"), Field(lead, "created_time"),
      lead, now)
  }

  /** `leads.map(...)` of `saveLeads`. */
  function MapLeads(leads: seq<Row>, now: string): seq<LeadRecord> {
    Map(leads, (lead: Row) => MapLead(lead, now))
  }

  /** Every stored record keeps its original row: the rows come back, in order, from `raw_data`. */
  lemma RawDataRoundTrip(leads: seq<Row>, now: string)
    ensures Map(MapLeads(leads, now), (m: LeadRecord) => m.rawData) == leads
  {
    var back := Map(MapLeads(leads, now), (m: LeadRecord) => m.rawData);
    forall i | 0 <= i < |leads|
      ensures back[i] == leads[i]
    {
      assert MapLeads(leads, now)[i] == MapLead(leads[i], now);
    }
  }
}
