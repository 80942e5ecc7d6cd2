/** The command-line uploader scripts/upload-to-supabase.js: its naive CSV reader, the mapping of a
    CSV row to a `leads` record, and its campaign extractor, which reads the campaign scalars from
    the first row only and counts a sale by a "sim" flag. */
module UploadScript {
  import opened Common
  import opened Text
  import opened Seqs
  import opened Columns
  import opened Amounts
  import opened Csv
  import opened Funnel
  import Campaign

  // ----- `parseCSV` -----

  /** `line.split(separator).map(v => v.trim().replace(/^"|"$/g, ''))`: a plain split whatever the
      separator, every field trimmed and stripped of one leading and one trailing quote. */
  function NaiveFields(line: string, sep: char): (fs: seq<string>)
    ensures |fs| == |Split(line, sep)|
  {
    Map(Split(line, sep), Finalize)
  }

  /** The header keys, split from the first line as it stands. */
  function Headers(first: string): seq<string> {
    NaiveFields(first, Delimiter(first))
  }

  /** The row of one data line: the line is trimmed, split, and each header takes the field at its
      position, or `''` when the line is short. */
  function UploadRow(headers: seq<string>, line: string, sep: char): Row {
    BuildRow(headers, NaiveFields(Trim(line), sep))
  }

  /** `parseCSV(content)`: no rows without a non-blank line, else one row per non-blank line after
      the first. */
  function UploadRows(content: string): seq<Row> {
    var lines := DataLines(content);
    if |lines| == 0 then []
    else
      Map(lines[1..], RowMaker(Headers(lines[0]), Delimiter(lines[0])))
  }

  function RowMaker(headers: seq<string>, sep: char): string -> Row {
    line => UploadRow(headers, line, sep)
  }

  /** `headers.forEach((header, index) => row[header] = values[index] || '')`. */
  method FillRow(headers: seq<string>, values: seq<string>) returns (row: Row)
    ensures row == BuildRow(headers, values)
  {
    row := [];
    for idx := 0 to |headers|
      invariant row == BuildRow(headers[..idx], values)
    {
      assert headers[..idx + 1][..idx] == headers[..idx];
      row := Put(row, headers[idx], ValueAt(values, idx));
    }
    assert headers[..|headers|] == headers;
  }

  /** `parseCSV` as the source runs it: the header line, then a loop pushing one row per line. */
  method ParseUploadCsv(content: string) returns (data: seq<Row>)
    ensures data == UploadRows(content)
  {
    var lines := DataLines(content);
    if |lines| == 0 {
      return [];
    }
    var sep := Delimiter(lines[0]);
    var headers := Headers(lines[0]);
    var rowOf := RowMaker(headers, sep);
    var rest := lines[1..];
    data := [];
    for i := 0 to |rest|
      invariant data == Map(rest[..i], rowOf)
    {
      TakeSnoc(rest, i);
      MapSnoc(rest[..i], rest[i], rowOf);
      // The source's `if (!line) continue` never fires: every line kept is non-blank.
      var line := Trim(rest[i]);
      var row := FillRow(headers, NaiveFields(line, sep));
      assert row == rowOf(rest[i]);
      data := data + [row];
    }
    assert rest[..|rest|] == rest;
  }

  /** Every non-blank line after the first gives exactly one row, in order; each row holds one key
      per distinct header, under which lies the field at the header's last position, `''` when the
      line is short; no other key. */
  lemma UploadRowsSpec(content: string, i: nat, k: string)
    requires i < |UploadRows(content)|
    ensures var lines := DataLines(content);
            && |UploadRows(content)| == |lines| - 1
            && var r := UploadRows(content)[i];
               var hs := Headers(lines[0]);
               var vs := NaiveFields(Trim(lines[i + 1]), Delimiter(lines[0]));
               && Keys(r) == KeepFirst(hs, Self)
               && Lookup(r, k) == if k in hs then Some(ValueAt(vs, LastIndex(hs, k))) else None
  {
    var lines := DataLines(content);
    var hs := Headers(lines[0]);
    var vs := NaiveFields(Trim(lines[i + 1]), Delimiter(lines[0]));
    assert UploadRows(content)[i] == BuildRow(hs, vs);
    BuildRowKeys(hs, vs);
    BuildRowLookup(hs, vs, k);
  }

  /** The rows of an empty file, or one with only a header line, are none. */
  lemma NoDataNoRows(content: string)
    requires |DataLines(content)| <= 1
    ensures UploadRows(content) == []
  {
  }

  /** Text without white space, double quotes or commas. */
  predicate Plain(a: string) {
    forall c :: c in a ==> !IsSpace(c) && c != '"' && c != ','
  }

  /** A plain piece with a quote before it loses the quote and nothing else. */
  lemma QuoteBefore(a: string)
    requires Plain(a)
    ensures Finalize("\"" + a) == a && ',' !in "\"" + a
  {
    var p := "\"" + a;
    assert ',' !in p && (|a| > 0 ==> a[|a| - 1] in a) by {
      assert forall c :: c in p ==> c == '"' || c in a;
    }
    assert Trim(p) == p by {
      TrimNoOp(p, IsSpace);
    }
    assert p[1..] == a;
  }

  /** A plain piece with a quote after it loses the quote and nothing else. */
  lemma QuoteAfter(a: string)
    requires Plain(a)
    ensures Finalize(a + "\"") == a && ',' !in a + "\""
  {
    var q := a + "\"";
    assert ',' !in q && (|a| > 0 ==> a[0] in a) by {
      assert forall c :: c in q ==> c == '"' || c in a;
    }
    assert Trim(q) == q by {
      TrimNoOp(q, IsSpace);
    }
    assert q[..|q| - 1] == a;
  }

  /** Two separator-free pieces joined by the separator split back into the two. */
  lemma SplitTwo(x: string, y: string, sep: char)
    requires sep !in x && sep !in y
    ensures Split(x + [sep] + y, sep) == [x, y]
  {
    assert Join([x, y], sep) == x + [sep] + y by {
      assert [x, y][1..] == [y];
    }
    SplitJoin([x, y], sep);
  }

  /** The naive split of two separator-free pieces joined by a comma. */
  lemma NaiveSplitTwo(x: string, y: string)
    requires ',' !in x && ',' !in y
    ensures NaiveFields(x + [','] + y, ',') == [Finalize(x), Finalize(y)]
  {
    SplitTwo(x, y, ',');
    MapTwo(x, y, Finalize);
  }

  lemma MapTwo<T, U>(x: T, y: T, f: T -> U)
    ensures Map([x, y], f) == [f(x), f(y)]
  {
  }

  /** The comma line `"a,b"` is its two quoted halves around the comma. */
  lemma QuotedLineHalves(a: string, b: string)
    ensures "\"" + a + "," + b + "\"" == ("\"" + a) + [','] + (b + "\"")
  {
  }

  /** The naive split of the comma line `"a,b"`. */
  lemma NaiveQuotedLine(a: string, b: string)
    requires Plain(a) && Plain(b)
    ensures NaiveFields("\"" + a + "," + b + "\"", ',') == [a, b]
  {
    var p0, p1 := "\"" + a, b + "\"";
    assert Finalize(p0) == a && ',' !in p0 by { QuoteBefore(a); }
    assert Finalize(p1) == b && ',' !in p1 by { QuoteAfter(b); }
    QuotedLineHalves(a, b);
    NaiveSplitTwo(p0, p1);
  }

  /** The comma line `"a,b"` needs no clean-up. */
  lemma PlainLineIsClean(a: string, b: string)
    requires Plain(a) && Plain(b)
    ensures CleanLine("\"" + a + "," + b + "\"") == "\"" + a + "," + b + "\""
  {
    var line := "\"" + a + "," + b + "\"";
    assert '\r' !in line by {
      assert forall c :: c in line ==> c == '"' || c == ',' || c in a || c in b;
    }
    RemoveCharNoOp(line, '\r');
    TrimNoOp(line, IsSpace);
  }

  /** The quote-aware split of the same line. */
  lemma DashboardQuotedLine(a: string, b: string)
    requires Plain(a) && Plain(b)
    ensures LineFields("\"" + a + "," + b + "\"", ',') == [a + "," + b]
  {
    var q := a + "," + b;
    var line := "\"" + a + "," + b + "\"";
    PlainLineIsClean(a, b);
    assert line == ['"'] + q + ['"'];
    assert '"' !in q && Trim(q) == q by {
      assert forall c :: c in q ==> c == ',' || c in a || c in b;
      TrimNoOp(q, IsSpace);
    }
    QuotedFieldIsOnePiece(q);
    assert FinalizeAll([q]) == [Finalize(q)];
  }

  /** Unlike the dashboard's reader, the uploader splits inside double quotes: the comma line
      `"a,b"` is the two fields `a` and `b` here and the one field `a,b` there. */
  lemma QuotedCommaSplitsApart(a: string, b: string)
    requires Plain(a) && Plain(b)
    ensures NaiveFields("\"" + a + "," + b + "\"", ',') == [a, b]
    ensures LineFields("\"" + a + "," + b + "\"", ',') == [a + "," + b]
  {
    NaiveQuotedLine(a, b);
    DashboardQuotedLine(a, b);
  }

  // ----- `mapLeadData` -----

  /** A `leads` record as the uploader builds it. */
  datatype UploadRecord = UploadRecord(
    nome: string, email: string, telefone: string, renda: string, qualSuaRendaMensal: string,
    dataDaVenda: string, vendaEfetuada: string, venda: string, sale: string, saleEfetuada: string,
    adsetName: string, adset: string, adName: string, ad: string, campaign: string,
    platform: string, createdTime: string, rawData: Row, createdAt: string)

  /** `a || b || ''` over two cells. */
  function Either(row: Row, a: string, b: string): string {
    Campaign.OrElse(Field(row, a), Field(row, b))
  }

  /** `mapLeadData(csvRow)`; `now` is `new Date().toISOString()`. */
  function MapLeadData(row: Row, now: string): (m: UploadRecord)
    ensures m.rawData == row && m.createdAt == now
    ensures !HasKey(row, "telefone") ==> m.telefone == ""
    ensures !HasKey(row, "sale_efetuada") ==> m.saleEfetuada == ""
    ensures m.nome == "" <==> Field(row, "nome") == "" && Field(row, "nome_completo") == ""
    ensures m.vendaEfetuada == "" <==> Field(row, "venda_efetuada") == "" && Field(row, "Venda_efetuada") == ""
    ensures Field(row, "nome") != "" ==> m.nome == Field(row, "nome")
  {
    UploadRecord(
      Either(row, "nome", "nome_completo"), Field(row, "email"), Field(row, "telefone"), Field(row, "renda"),
      Either(row, "qual_sua_renda_mensal", "qual_sua_renda_mensal?"),
      Either(row, "data_da_venda", "Data_da_venda"), Either(row, "venda_efetuada", "Venda_efetuada"),
      Either(row, "venda", "Venda"), Either(row, "sale", "Sale"), Field(row, "sale_efetuada"),
      Field(row, "adset_name"), Field(row, "adset"), Field(row, "ad_name"), Field(row, "ad"),
      Field(row, "campaign"), Field(row, "platform"), Field(row, "created_time"),
      row, now)
  }

  /** `csvData.map(mapLeadData)`. */
  function MapLeads(rows: seq<Row>, now: string): seq<UploadRecord> {
    Map(rows, (row: Row) => MapLeadData(row, now))
  }

  /** The stored records give the CSV rows back, in order, from `raw_data`. */
  lemma RawDataRoundTrip(rows: seq<Row>, now: string)
    ensures Map(MapLeads(rows, now), (m: UploadRecord) => m.rawData) == rows
  {
    var back := Map(MapLeads(rows, now), (m: UploadRecord) => m.rawData);
    forall i | 0 <= i < |rows|
      ensures back[i] == rows[i]
    {
      assert MapLeads(rows, now)[i] == MapLeadData(rows[i], now);
    }
  }

  // ----- `extractManualDataFromCSV` -----

  /** `firstLead.verba_gasta || firstLead.churn_rate || firstLead.reunioes_agendadas ||
      firstLead.reunioes_realizadas` is truthy. */
  predicate HasCampaignData(first: Row) {
    Field(first, "verba_gasta") != "" || Field(first, "churn_rate") != ""
    || Field(first, "reunioes_agendadas") != "" || Field(first, "reunioes_realizadas") != ""
  }

  /** `lead.venda_efetuada || lead.Venda_efetuada || lead.venda_efetuada || lead.Venda_efetuada`. */
  function SaleFlag(lead: Row): string {
    Campaign.OrElse(Campaign.OrElse(Either(lead, "venda_efetuada", "Venda_efetuada"), Field(lead, "venda_efetuada")),
                    Field(lead, "Venda_efetuada"))
  }

  /** The sale test: the flag is set and its lower-cased text contains "sim". */
  predicate IsSim(lead: Row) {
    SaleFlag(lead) != "" && Contains(ToLower(SaleFlag(lead)), "sim")
  }

  /** `parseFloat(<clean-up of (venda || Venda || sale || Sale || '0')>) || 0`. */
  function SaleAmount(lead: Row): real {
    JsAmount(Campaign.OrElse(Campaign.OrElse(Either(lead, "venda", "Venda"), Either(lead, "sale", "Sale")), "0"))
  }

  /** The step of the `reduce`: a "sim" row adds its amount, any other row nothing. */
  function SimAmount(lead: Row): real {
    if IsSim(lead) then SaleAmount(lead) else 0.0
  }

  datatype UploadCampaign = UploadCampaign(
    ltv: real, margemBruta: real, verbaGasta: real, vendasEfetuadas: nat, faturamentoTotal: real,
    churnRate: real, reunioesAgendadas: int, reunioesRealizadas: int)

  /** `parseFloat(<cell k> || '0') || 0`, without the locale clean-up. */
  function Scalar(first: Row, k: string): real {
    JsParseFloat(Campaign.OrElse(Field(first, k), "0")).GetOr(0.0)
  }

  /** `extractManualDataFromCSV(csvData)`, None standing for `null`: only the first row is asked for
      campaign data; sales are the "sim" rows and the revenue their amounts. */
  function ExtractManualData(rows: seq<Row>): (r: Option<UploadCampaign>)
    ensures r.None? <==> |rows| == 0 || !HasCampaignData(rows[0])
    ensures r.Some? ==> r.value.ltv == 8723.24 && r.value.margemBruta == 58.72
    ensures r.Some? ==> r.value.vendasEfetuadas == |Filter(rows, IsSim)|
    ensures r.Some? ==> r.value.verbaGasta == Scalar(rows[0], "verba_gasta")
                        && r.value.churnRate == Scalar(rows[0], "churn_rate")
  {
    if |rows| == 0 then None
    else
      var first := rows[0];
      if !HasCampaignData(first) then None
      else
        Some(UploadCampaign(
          LtvFixo, MargemBrutaFixa, Scalar(first, "verba_gasta"), |Filter(rows, IsSim)|, Sum(rows, SimAmount),
          Scalar(first, "churn_rate"),
          JsParseInt(Campaign.OrElse(Field(first, "reunioes_agendadas"), "0")).GetOr(0),
          JsParseInt(Campaign.OrElse(Field(first, "reunioes_realizadas"), "0")).GetOr(0)))
  }

  /** The revenue sums the sale amount over the "sim" rows and nothing else; without a sale it is 0. */
  lemma RevenueOverSimRows(rows: seq<Row>)
    requires ExtractManualData(rows).Some?
    ensures ExtractManualData(rows).value.faturamentoTotal == Sum(Filter(rows, IsSim), SaleAmount)
    ensures ExtractManualData(rows).value.vendasEfetuadas == 0 ==> ExtractManualData(rows).value.faturamentoTotal == 0.0
  {
    SumFilter(rows, IsSim, SaleAmount, SimAmount);
  }

  /** The repeated alternatives of the flag change nothing: it is the first set cell of
      `venda_efetuada` and `Venda_efetuada`. */
  lemma SaleFlagIsEither(lead: Row)
    ensures SaleFlag(lead) == Either(lead, "venda_efetuada", "Venda_efetuada")
  {
  }

  /** Only the first row is asked for the campaign scalars, while the dashboard's service searches
      every row, and names the churn cell `churn` where the uploader reads `churn_rate`: a campaign
      row after the first is found by one and not by the other. */
  lemma CampaignRowOnlyFirst()
    ensures var rows := [[], [("verba_gasta", "1")]];
            ExtractManualData(rows).None? && Campaign.ExtractManualData(rows).Some?
  {
    var rows: seq<Row> := [[], [("verba_gasta", "1")]];
    assert Field(rows[1], "verba_gasta") == "1";
    assert Campaign.HasCampaignData(rows[1]);
  }
}
