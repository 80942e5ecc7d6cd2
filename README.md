# Campaign dashboard: a verified model of its CSV-to-metrics pipeline

This project models the data path of a marketing-campaign dashboard. Leads are exported from Facebook
lead forms to a CSV file, which the dashboard reads into rows. It computes funnel figures, per-adset,
per-ad and per-month tables, conversion times and weekday and hourly analyses. Two
Node scripts load the same CSV into a Supabase table (`upload-to-supabase.js`) and remove duplicate
leads from it (`clean-duplicates.cjs`). A Python script tallies sales per adset
(`check_adset_sales_data.py`). The campaign extractor of `src/services/dataService.ts` reads the
campaign's own figures out of the lead rows.

The model follows the program's structure, one module per concern:

- `Common`: option and result values, and the guarded divisions and percentages used everywhere.
- `Text`: trimming and lower-casing, `split`, `includes` and the character replacements.
- `Amounts` and `AmountFacts`: the currency parsers of the dashboard, the extractors and the Python
  script. Amounts are `real`. JavaScript's `parseFloat`/`parseInt` and Python's `float` are written
  out as scanners, and proofs relate the parsers to each other.
- `Columns`: rows as ordered key/value sequences, as a JavaScript object keeps its keys in
  insertion order. Also the column resolvers `getColumnValue` and `get_column_value`.
- `Csv`: the dashboard's `parseCSV`: separator guess, quote-aware split, header and e-mail tests,
  and the duplicate test on e-mails.
- `Income`, `Dates`, `Trend`: income scores, month keys and day counts, and the least-squares
  trendline.
- `Funnel`: the sales count, unique buyers and the funnel ratios.
- `Seqs`, `Sorting`, `Tally`: filter/map/sum, keep-first grouping, a stable insertion sort standing
  for `Array.prototype.sort`, and the "create the entry on first sight, then update it" dictionary
  loop that most tables use.
- `Grouping`, `Ads`, `Monthly`, `Overview`, `AdsetMonths`, `Conversion`, `TimeSlots`: the
  dashboard's tables.
- `Campaign`: the campaign extractor and the lead mapping of `src/services/dataService.ts`.
- `AdsetScript`, `UploadScript`, `CleanDuplicates`: the Python script and the two Node scripts.

Where the source loops, the model has a method with a loop whose `ensures` ties its result to a
specification function. Lemmas then state the properties of that function. Date parsing,
`parseDate`, is a parameter (`parse: string -> Option<Date>`) throughout, so every property holds
for whatever dates the parser yields.

## Model

| member | source | states |
|---|---|---|
| Common.GuardedDiv | src/components/Dashboard.tsx:401-403 | the quotient is 0 when the denominator is not positive, and otherwise multiplies back to the numerator |
| Common.GuardedPercent | src/components/Dashboard.tsx:420-422 | the percentage is 0 for a non-positive whole, and otherwise times the whole is 100 times the part |
| Common.PercentBounds | src/components/Dashboard.tsx:422 | a part of a whole is between 0 and 100 per cent |
| Common.PercentMonotone | src/components/Dashboard.tsx:420-422 | a larger part gives a larger percentage of the same whole |
| Common.MeanBounds | src/components/Dashboard.tsx:541 | a mean of terms in [0, c] is in [0, c] |
| Common.PercentOfCount | src/components/Dashboard.tsx:539 | a count out of a larger count is a percentage |
| Common.NothingDivided | check_adset_sales_data.py:78-79 | a zero numerator gives a zero quotient |
| Common.QuotientPositive | src/components/Dashboard.tsx:702 | a positive total over a positive count gives a positive share |
| Text.TrimWith | src/components/Dashboard.tsx:92 | trimming yields the slice between the leading and the trailing white space |
| Text.TrimWithBounds | src/components/Dashboard.tsx:92 | only white space is removed, and the result neither starts nor ends with it |
| Text.BlankIffAllSpace | src/components/Dashboard.tsx:92 | a line trims to empty exactly when every character is white space |
| Text.TrimIdempotent | src/components/Dashboard.tsx:135 | trimming a field already trimmed by the splitter changes nothing |
| Text.ToLower | src/components/Dashboard.tsx:157 | no ASCII or Latin-1 capital is left; each capital becomes the small letter 32 code points after it, every other character stays where and what it was |
| Text.ToLowerIdempotent | src/components/Dashboard.tsx:261 | lower-casing twice is lower-casing once |
| Text.ContainsIff | src/components/Dashboard.tsx:265 | `includes` holds exactly when the needle is a prefix of some suffix |
| Text.Split | src/components/Dashboard.tsx:92 | `split` gives at least one piece, none holding the separator |
| Text.JoinSplit | src/components/Dashboard.tsx:92 | joining the pieces of a split with the separator gives the string back |
| Text.SplitJoin | scripts/upload-to-supabase.js:46 | splitting separator-free pieces joined by the separator gives the pieces back |
| Text.RemoveWhere | src/components/Dashboard.tsx:354 | `replace(/\s/g, '')` keeps only characters of the input that are not dropped |
| Text.RemoveChar | src/components/Dashboard.tsx:354 | `replace(/\./g, '')` leaves no occurrence of the character |
| Text.ReplaceChar | src/components/Dashboard.tsx:354 | the length is kept and none of the replaced character is left; a place holds the new character exactly when it held the old or the new one, and every other place is unchanged |
| Text.RemovePair | src/components/Dashboard.tsx:354 | `replace(/R\$/g, '')` never lengthens and keeps only characters of the input |
| Amounts.ScanAt | src/components/Dashboard.tsx:354 | `parseFloat`'s scan of the longest decimal prefix from an index; a literal read ends after that index and within the string |
| Amounts.JsParseFloat | src/components/Dashboard.tsx:354 | specified by `AmountFacts.FormattedAmountRoundTrip` (a formatted amount reads back to its value) and `AmountFacts.JsReadsWhatPythonReads` (it agrees with `float` on what `float` accepts without `_`) |
| Amounts.JsParseInt | src/services/dataService.ts:226-227 | specified by `AmountFacts.ParseIntDigits`: a plain numeral reads back to its number |
| Amounts.LocaleClean | src/components/Dashboard.tsx:354 | specified by `AmountFacts.CleanFormatted`: a written amount becomes the plain decimal numeral |
| Amounts.JsAmount | src/components/Dashboard.tsx:354 | specified by `Amounts.SaleIffPositiveValue` and `AmountFacts.FormattedAmountRoundTrip`: the parsed amount of a formatted cell is its value |
| Amounts.ExtractValue | src/services/dataService.ts:149-152 | 0 for an empty or blank cell and for one with `;`; otherwise the locale-parsed amount |
| Amounts.SaleIffPositiveValue | src/components/Dashboard.tsx:348-356 | the dashboard's sale test holds exactly when `extractValue` reads a positive amount |
| Amounts.ToNumericOrNull | src/services/dataService.ts:40-44 | null for a blank value; a present result is the locale-parsed amount; a non-zero amount is present |
| Amounts.ParseFloatValue | check_adset_sales_data.py:11-19 | 0 for an empty or blank value and for one containing `;`; otherwise `float` of the cleaned value, 0 when `float` rejects it |
| Amounts.PyFloat | check_adset_sales_data.py:16-19 | specified by `AmountFacts.JsReadsWhatPythonReads` and `AmountFacts.PyReadsGrouped`: a whole literal, its digits grouped by underscores, or the `ValueError` |
| Amounts.PyClean | check_adset_sales_data.py:15 | specified by `AmountFacts.CleanFormatted`: a written amount becomes the plain decimal numeral |
| AmountFacts.FormattedAmountRoundTrip | src/components/Dashboard.tsx:354 | an amount written as `R$ 1.234,56` reads back to its value through the dashboard's parse, `extractValue`, `toNumericOrNull` and `parse_float_value` |
| AmountFacts.CleanFormatted | check_adset_sales_data.py:15 | both clean-ups turn a written amount into the plain decimal numeral |
| AmountFacts.FormatExample | src/components/Dashboard.tsx:354 | 123456 centavos are written `R$ 1.234,56` |
| AmountFacts.UngroupedDigits | src/components/Dashboard.tsx:354 | removing the thousands dots of a grouped numeral gives the plain numeral |
| AmountFacts.ParseIntDigits | src/services/dataService.ts:226-227 | `parseInt` reads a plain numeral back to its number |
| AmountFacts.CleanAsciiSpaced | check_adset_sales_data.py:15 | on a cell whose only white space is the ASCII space, both clean-ups agree and leave no white space |
| AmountFacts.BlankAsciiSpaced | check_adset_sales_data.py:12 | on such a cell the JavaScript and Python blank tests agree |
| AmountFacts.JsReadsWhatPythonReads | check_adset_sales_data.py:16-19 | on a string without white space or `_` that `float` accepts, `parseFloat` reads the same value |
| AmountFacts.PythonAgreesWithDashboard | check_adset_sales_data.py:11-19 | on a cell without `_` whose only white space is the ASCII space, a non-zero reading of `parse_float_value` is what `extractValue` reads |
| AmountFacts.UnderscoreSplitsReaders | check_adset_sales_data.py:16-19 | on a grouped cell `d_efg` `parse_float_value` reads the four-digit number and `extractValue` only the leading digit, so they disagree whenever that digit is not 0 |
| AmountFacts.PythonReadsUnderscored | check_adset_sales_data.py:11-19 | `parse_float_value` of `d_efg` is the number the four digits spell |
| AmountFacts.DashboardReadsUnderscored | src/services/dataService.ts:149-152 | `extractValue` of `d_efg` is the leading digit |
| AmountFacts.PyReadsGrouped | check_adset_sales_data.py:17 | `float` drops the underscore between digits and reads the whole literal |
| AmountFacts.JsReadsLeading | src/components/Dashboard.tsx:354 | `parseFloat` stops at the underscore |
| AmountFacts.GroupedDigitsClean | check_adset_sales_data.py:12-15 | digits and underscores pass both strips and both clean-ups unchanged |
| AmountFacts.DashboardReadsTwoCommas | src/services/dataService.ts:149-152 | the cell `a,b,c` is read as `a.b` |
| AmountFacts.PythonRejectsTwoCommas | check_adset_sales_data.py:15-19 | the cell `a,b,c` is read as 0 |
| AmountFacts.PythonRejectsWhatDashboardReads | check_adset_sales_data.py:15-19 | the two readers differ on a cell with two decimal commas |
| AmountFacts.TrimmedClean | src/services/dataService.ts:149-152 | trimming a cell before the clean-up changes nothing |
| AmountFacts.TrimmedAmount | src/components/Dashboard.tsx:691-700 | the trimmed and the untrimmed cell are the same amount |
| Columns.Lookup | src/components/Dashboard.tsx:258 | a lookup finds a value exactly when the key is present |
| Columns.Put | src/components/Dashboard.tsx:135 | assignment adds one entry for a new key and none for an existing key |
| Columns.PutLookup | src/components/Dashboard.tsx:135 | after `row[k] = v`, `k` reads `v` and every other key reads as before |
| Columns.PutKeys | src/components/Dashboard.tsx:135 | the keys keep their order, and a new key is appended |
| Columns.PutUnique | src/components/Dashboard.tsx:135 | assignment never repeats a key |
| Columns.BuildRowKeys | src/components/Dashboard.tsx:135 | a filled row has one key per distinct header, in order of first appearance |
| Columns.BuildRowUnique | src/components/Dashboard.tsx:135 | a filled row has no repeated key |
| Columns.BuildRowLookup | src/components/Dashboard.tsx:135 | each header holds the field at its last position (`''` past the line's end), and other keys are missing |
| Columns.BuildRowHasKey | src/components/Dashboard.tsx:135 | a filled row has a key exactly for each header |
| Columns.ExactPass | src/components/Dashboard.tsx:258 | the first pass returns a candidate that is a key of the row |
| Columns.FallbackPass | src/components/Dashboard.tsx:260-267 | a fallback pass returns a non-empty key of the row |
| Columns.ResolveKey | src/components/Dashboard.tsx:257-269 | the key read is a key of the row |
| Columns.FindKey | src/components/Dashboard.tsx:261 | the `find` loop returns the first matching key, or none |
| Columns.GetColumnValue | src/components/Dashboard.tsx:257-269 | the three loops with early returns compute the resolver's value |
| Columns.ColumnValue | src/components/Dashboard.tsx:257-269 | specified by `Columns.GetColumnValue`, `Columns.ExactMatchWins`, `Columns.FallbackFirst`, `Columns.ResolveNoneIff` and `Columns.UnmatchedIsEmpty`: exact, then case-insensitive, then partial matches, first candidate first, `''` when none matches |
| Columns.ExactMatchWins | src/components/Dashboard.tsx:258 | the first candidate that is a key wins over every case-insensitive or partial match |
| Columns.ExactPassNone | src/components/Dashboard.tsx:258 | the exact pass finds nothing exactly when no candidate is a key |
| Columns.FallbackFirst | src/components/Dashboard.tsx:260-263 | within a fallback pass the earliest successful candidate wins, with its first matching key |
| Columns.FindNone | src/components/Dashboard.tsx:261 | `find` finds nothing exactly when no key matches |
| Columns.ResolveNoneIff | src/components/Dashboard.tsx:257-269 | without an empty key, the resolver is unmatched exactly when no key matches any candidate |
| Columns.RepeatedCandidate | src/components/Dashboard.tsx:572 | listing a candidate a second time, later, changes nothing |
| Columns.UnmatchedIsEmpty | src/components/Dashboard.tsx:268 | an unmatched resolution returns `''` |
| Columns.EmptyFirstKeyHidesPartialMatches | src/components/Dashboard.tsx:265-266 | a row whose first key is empty answers no partial search |
| Columns.GetColumnValuePy | check_adset_sales_data.py:5-9 | the Python loop computes `get_column_value` |
| Columns.PythonAgreesOnExactKeys | check_adset_sales_data.py:5-9 | the two resolvers agree whenever a candidate is a key; otherwise the Python one returns `''` |
| Csv.DataLines | src/components/Dashboard.tsx:92 | every line kept is non-blank and holds no line break |
| Csv.Delimiter | src/components/Dashboard.tsx:95-98 | `;` if the first line has one, else a tab if it has one, else a comma (each an if-and-only-if) |
| Csv.StripQuotes | src/components/Dashboard.tsx:110 | quote-free text is unchanged, and a quoted field loses its outer quotes |
| Csv.Pieces | src/components/Dashboard.tsx:104-115 | the quote-aware split gives at least one piece, none holding a quote |
| Csv.LineFields | src/components/Dashboard.tsx:100-117 | a line has at least one field |
| Csv.ParseLine | src/components/Dashboard.tsx:100-117 | the character loop computes the line's fields |
| Csv.PiecesWithoutQuotes | src/components/Dashboard.tsx:104-115 | without quotes, the quote-aware split is the plain split at commas |
| Csv.QuotedFieldIsOnePiece | src/components/Dashboard.tsx:107-108 | `"a,b"` is the single field `a,b` |
| Csv.CommaFieldIsTrimmed | src/components/Dashboard.tsx:110 | a field from the quote-aware split is only trimmed |
| Csv.CommaLineWithoutQuotes | src/components/Dashboard.tsx:100-117 | a comma line without quotes gives the trimmed pieces of a plain split |
| Csv.FillRow | src/components/Dashboard.tsx:134-135 | the filled row is the row built from the headers and the trimmed values |
| Csv.AdmitRow | src/components/Dashboard.tsx:138-157 | the admission tests of one row, in the source's order, and its duplicate key |
| Csv.ReadRows | src/components/Dashboard.tsx:131-165 | the loop keeps the first accepted row of each e-mail, in file order |
| Csv.ParseCsv | src/components/Dashboard.tsx:91-168 | `parseCSV` computes the reader's result: the leads or the missing-header error |
| Csv.CsvRows | src/components/Dashboard.tsx:91-168 | specified by `Csv.RefusedIffNoEmailHeader` and `Csv.LeadsSpec`: the error exactly without an e-mail header, otherwise well-formed leads distinct by e-mail |
| Csv.EmptyFileHasNoLeads | src/components/Dashboard.tsx:93 | a file without a non-blank line gives no leads |
| Csv.RefusedIffNoEmailHeader | src/components/Dashboard.tsx:124-129 | a file is refused exactly when its header line has no e-mail header |
| Csv.LeadsSpec | src/components/Dashboard.tsx:138-164 | the leads are well-formed, distinct by e-mail, a subsequence of the file's rows, and the first accepted row of each e-mail |
| Csv.EveryEmailRepresented | src/components/Dashboard.tsx:156-164 | every accepted row's e-mail is among the leads |
| Csv.LeadKeys | src/components/Dashboard.tsx:119-135 | a lead has a key exactly when the trimmed header line has it |
| Csv.LeadEmailFromFirstAlias | src/components/Dashboard.tsx:141 | each lead's e-mail is read from the first e-mail spelling the header line has |
| Csv.ValidEmailShape | src/components/Dashboard.tsx:150-151 | an accepted e-mail has at least five characters, no white space and exactly one `@` |
| Dates.YearText | src/components/Dashboard.tsx:276 | a year's text is never empty |
| Dates.MonthKey | src/components/Dashboard.tsx:276 | the key is the year text, `-` and two digits |
| Dates.MonthKeyOf | src/components/Dashboard.tsx:276 | a key exists exactly when a date does |
| Dates.YearTextSign | src/components/Dashboard.tsx:276 | the year text starts with `-` exactly for a negative year |
| Dates.MonthKeyInjective | src/components/Dashboard.tsx:276 | two dates share a key exactly when they share year and month |
| Dates.MonthKeyOrder | src/components/Dashboard.tsx:647 | for years with equally many digits, string order of keys is chronological order |
| Dates.FourDigitMonthKeyOrder | src/components/Dashboard.tsx:647 | the keys of years 1000 to 9999 sort chronologically |
| Dates.CeilDiv | src/components/Dashboard.tsx:847 | `Math.ceil(a / b)` is the least integer `q` with `a <= q * b` |
| Dates.ConversionDays | src/components/Dashboard.tsx:847 | the day count is the whole-day ceiling of the time difference |
| Dates.ConversionDaysBounds | src/components/Dashboard.tsx:847 | a sale on or after the lead takes at least 0 days; within a day, exactly 1; at the same instant, 0 |
| Income.IncomeScore | src/components/Dashboard.tsx:425-433 | the score is 0 exactly off the seven bands, and otherwise the band's position plus one |
| Income.BandsDistinct | src/components/Dashboard.tsx:425-433 | the seven bands are distinct |
| Income.ScoreOfBand | src/components/Dashboard.tsx:425-433 | the band at position `k` scores `k + 1` |
| Income.QualifiedIffScore | src/components/Dashboard.tsx:435-438 | a lead is qualified exactly when its score is at least 3 |
| Income.HighIncomeIffScore | src/components/Dashboard.tsx:440-443 | a lead is high-income exactly when its score is at least 4 |
| Income.HighIncomeIsQualified | src/components/Dashboard.tsx:435-443 | every high-income lead is qualified |
| Funnel.HasValidSale | src/components/Dashboard.tsx:348-356 | specified by `Amounts.SaleIffPositiveValue` and `Funnel.SalesFromCsvSpec`: a row has a sale exactly when `extractValue` reads its sale cell as positive |
| Funnel.SalesFromCsv | src/components/Dashboard.tsx:358-360 | specified by `Funnel.SalesFromCsvSpec` |
| Funnel.SalesFromCsvSpec | src/components/Dashboard.tsx:358-360 | the sales count is the rows with a positive sale amount, never more than the rows |
| Funnel.BuyerBounds | src/components/Dashboard.tsx:363-418 | planning buyers are at most the buyers, who are at most the buying rows |
| Funnel.UniqueBuyersAsWritten | src/components/Dashboard.tsx:363-394 | the buyer count as written, keyed by `row.email \|\| ''`; bounded by `Funnel.BuyerBoundsAsWritten`, collapsing to 1 by `Funnel.AsWrittenCollapses` |
| Funnel.UniquePlanBuyersAsWritten | src/components/Dashboard.tsx:409-418 | the planning-buyer count as written, keyed by `row.email \|\| ''` (line 413); bounded by `Funnel.BuyerBoundsAsWritten` |
| Funnel.UniqueBuyers | src/components/Dashboard.tsx:363-394 | the corrected buyer count keyed by the accepted e-mail; bounded by `Funnel.BuyerBounds`, equal to the buying leads by `Funnel.BuyersOfLeads` |
| Funnel.UniquePlanBuyers | src/components/Dashboard.tsx:409-418 | the corrected planning-buyer count; bounded by `Funnel.BuyerBounds`, equal to the planning leads by `Funnel.BuyersOfLeads` |
| Funnel.BuyerBoundsAsWritten | src/components/Dashboard.tsx:363-418 | as written too, planning buyers are at most the buyers, who are at most the buying rows |
| Funnel.BuyersPositive | src/components/Dashboard.tsx:363-394 | a buying row makes at least one buyer under either key |
| Funnel.BuyersOfLeads | src/components/Dashboard.tsx:363-394 | over the reader's leads, every buying lead is one buyer |
| Funnel.AsWrittenCollapses | src/components/Dashboard.tsx:371 | as written, rows without an `email` key count as the single buyer `''`, and as the single planning buyer when one bought a plan |
| Funnel.AsWrittenMiscountsCapitalisedHeader | src/components/Dashboard.tsx:363-394 | with an `Email` header and some buyer, the dashboard as written reports one buyer, while the corrected count reports all of them |
| Funnel.FunnelRatios | src/components/Dashboard.tsx:397-423 | every ratio is 0 when its denominator is not positive, CAC times the buyers is the budget, and LTGP is the fixed value |
| Funnel.LtgpValue | src/components/Dashboard.tsx:397-402 | LTGP is LTV times the gross margin, 5122.286528 |
| Funnel.LtgpCacReturn | src/components/Dashboard.tsx:401-403 | with money spent, LTGP/CAC is the gross profit per real spent; with none spent it is 0 |
| Funnel.DashboardRatiosAsWritten | src/components/Dashboard.tsx:397-423 | the ratios over the as-written counts; `Funnel.LeadToSaleIsPercentage` and `Funnel.AsWrittenCacIsWholeBudget` state what they give |
| Funnel.DashboardRatios | src/components/Dashboard.tsx:397-423 | the ratios over the corrected counts, the corrected half of the first finding; `Funnel.LeadToSaleIsPercentage` and `Funnel.AsWrittenCacIsWholeBudget` state what they give |
| Funnel.CacPerBuyer | src/components/Dashboard.tsx:401 | with a buyer, CAC is the budget divided by the buyers |
| Funnel.CacOfOneBuyer | src/components/Dashboard.tsx:401 | with one as-written buyer, CAC is the whole budget |
| Funnel.CacPerUniqueBuyer | src/components/Dashboard.tsx:401 | keyed by e-mail, CAC is the budget divided by the unique buyers |
| Funnel.AsWrittenCacIsWholeBudget | src/components/Dashboard.tsx:363-403 | on a file whose e-mail header is not `email`, with buyers, the as-written CAC is the whole budget, while the corrected CAC is the budget per buying lead |
| Funnel.LeadToSaleIsPercentage | src/components/Dashboard.tsx:422 | the lead-to-sale rate is a percentage, over the corrected and the as-written counts |
| Trend.Line | src/components/Dashboard.tsx:490 | a line over `n` points has `n` values |
| Trend.Fitted | src/components/Dashboard.tsx:481-490 | the fitted line has one value per point |
| Trend.Trendline | src/components/Dashboard.tsx:475-491 | null exactly for fewer than two points, and otherwise one value per point |
| Trend.DenominatorClosed | src/components/Dashboard.tsx:486 | the slope's denominator is `n^2 (n^2 - 1) / 12` |
| Trend.DenominatorPositive | src/components/Dashboard.tsx:486 | from two points on, the slope's denominator is positive |
| Trend.NormalEquations | src/components/Dashboard.tsx:486-487 | the slope and intercept solve both normal equations of least squares |
| Trend.FittedSumY | src/components/Dashboard.tsx:486-490 | the fitted line has the data's `sumY` |
| Trend.FittedSumXY | src/components/Dashboard.tsx:486-490 | the fitted line has the data's `sumXY` |
| Trend.SumsDetermineLine | src/components/Dashboard.tsx:486-487 | from two points on, `sumY` and `sumXY` determine a line |
| Trend.FittedIsLine | src/components/Dashboard.tsx:490 | the fitted values lie on a line |
| Trend.FittedUnique | src/components/Dashboard.tsx:486-490 | a line with the data's sums is the fitted line |
| Trend.TrendlineKeepsSums | src/components/Dashboard.tsx:475-491 | the trendline keeps the data's `sumY` and `sumXY` |
| Trend.TrendlineIsLeastSquares | src/components/Dashboard.tsx:475-491 | a line is the trendline exactly when it satisfies the normal equations of the data |
| Trend.TrendlineFitsLine | src/components/Dashboard.tsx:475-491 | data already on a line are their own trendline |
| Grouping.FilteredData | src/components/Dashboard.tsx:284-312 | the filtered rows are a subsequence holding exactly the rows that pass every filter |
| Grouping.FilterNothing | src/components/Dashboard.tsx:284-312 | with every filter unset, all rows are kept |
| Grouping.Adsets | src/components/Dashboard.tsx:462 | the adset list has no repeats, holds every row's non-empty adset and nothing else |
| Grouping.AdsetHasLeads | src/components/Dashboard.tsx:462-463 | every listed adset has a lead |
| Grouping.AdsetGroupsPartition | src/components/Dashboard.tsx:462-463 | the adset groups partition the rows with an adset |
| Grouping.AdsetTotal | src/components/Dashboard.tsx:460-465 | over an adset table, per-adset lead counts add up to the rows with an adset |
| Grouping.AdsetCountTotal | src/components/Dashboard.tsx:683-707 | per-adset counts over some rows add up to those rows with an adset |
| Grouping.AdsetPerformanceSpec | src/components/Dashboard.tsx:460-465 | the adset table is ordered by leads, has each adset once with its true lead count, and sums to the rows with an adset |
| Grouping.AdsetPerformance | src/components/Dashboard.tsx:460-465 | specified by `Grouping.AdsetPerformanceSpec` |
| Grouping.BandSlices | src/components/Dashboard.tsx:452-458 | one slice per band, before the empty ones are dropped |
| Grouping.BandTotal | src/components/Dashboard.tsx:452-458 | band counts add up to the rows whose income is a band |
| Grouping.IncomeDistributionShape | src/components/Dashboard.tsx:452-458 | at most seven slices, each a band label with rows |
| Grouping.IncomeDistributionTotal | src/components/Dashboard.tsx:452-458 | the slices add up to the rows whose income is a band |
| Grouping.IncomeDistribution | src/components/Dashboard.tsx:452-458 | specified by `Grouping.IncomeDistributionShape` and `Grouping.IncomeDistributionTotal` |
| Grouping.AvgScoreBounds | src/components/Dashboard.tsx:541 | the average income score lies between 0 and 7 |
| Grouping.AvgScoreUnbanded | src/components/Dashboard.tsx:541 | leads without a band average 0 |
| Grouping.AllBandShares | src/components/Dashboard.tsx:537-540 | one share per band, in band order |
| Grouping.BandShareAt | src/components/Dashboard.tsx:537-539 | band `i`'s share carries its label and a percentage |
| Grouping.BandSharesShape | src/components/Dashboard.tsx:537-540 | each share is a band with leads and its percentage of all leads |
| Grouping.BandSharesTotal | src/components/Dashboard.tsx:537-540 | the shares' counts add up to the banded leads, at most all leads |
| Grouping.AdsetIncomeDataSpec | src/components/Dashboard.tsx:530-544 | the table is ordered by average score, has each adset once with its leads' figures, and sums to the rows with an adset |
| Grouping.AdsetIncomeData | src/components/Dashboard.tsx:530-544 | specified by `Grouping.AdsetIncomeDataSpec` |
| Grouping.QualityBounds | src/components/Dashboard.tsx:657-677 | high-income within qualified within all leads, rates ordered the same way and within 0..100, score within 0..7 |
| Grouping.AdsetQualitySpec | src/components/Dashboard.tsx:651-680 | the quality table is ordered by score, has each adset once with its own figures, and sums to the rows with an adset |
| Grouping.AdsetQualityTable | src/components/Dashboard.tsx:651-680 | specified by `Grouping.AdsetQualitySpec` and `Grouping.QualityBounds` |
| Ads.SoldIffPositiveAmount | src/components/Dashboard.tsx:691-700 | the trimmed sale test holds exactly when the amount added to revenue is positive |
| Ads.ValidSaleIffSoldWithoutSemicolon | src/components/Dashboard.tsx:348-356 | `hasValidSale` is the amount test plus the absence of `;` |
| Ads.FiguresCounts | src/components/Dashboard.tsx:689-703 | leads are all the group's rows, sales are those with a positive amount, and the rate is a percentage, 0 without sales |
| Ads.FiguresRevenue | src/components/Dashboard.tsx:697-701 | revenue sums the positive amounts, is non-negative, and is positive exactly when there is a sale |
| Ads.TicketOf | src/components/Dashboard.tsx:702 | the ticket is 0 without sales, and otherwise positive and multiplies back to the revenue |
| Ads.FiguresTicket | src/components/Dashboard.tsx:702 | the average ticket is 0 without sales and positive with them |
| Ads.AdsetSalesSpec | src/components/Dashboard.tsx:683-707 | the sales table is ordered by revenue and has each adset once with the figures of exactly its leads |
| Ads.AdsetSalesAreSales | src/components/Dashboard.tsx:689-696 | each adset's sales are the sales among its leads |
| Ads.AdsetSalesTotals | src/components/Dashboard.tsx:683-707 | the leads add up to the rows with an adset, and the sales to the sales with an adset |
| Ads.AdsetSalesData | src/components/Dashboard.tsx:683-707 | specified by `Ads.AdsetSalesSpec`, `Ads.AdsetSalesAreSales` and `Ads.AdsetSalesTotals` |
| Ads.ReadCombo | src/components/Dashboard.tsx:554-557 | the test of the combination loop and the pair read |
| Ads.CollectCombosAsWritten | src/components/Dashboard.tsx:551-558 | the loop keyed by the text `${ad}\|\|\|${adset}` |
| Ads.CollectCombos | src/components/Dashboard.tsx:551-558 | the same loop keyed by the pair |
| Ads.CombosSpec | src/components/Dashboard.tsx:551-558 | each pair once, every row's pair listed, every listed pair a row's |
| Ads.Combos | src/components/Dashboard.tsx:551-558 | specified by `Ads.CombosSpec`: each pair once, every row's pair listed, every listed pair a row's |
| Ads.ComboKeyInjective | src/components/Dashboard.tsx:556 | the text key separates pairs when no ad name holds `\|` |
| Ads.AsWrittenAgrees | src/components/Dashboard.tsx:551-558 | without `\|` in ad names, the loop as written lists exactly the pairs |
| Ads.KeysCollide | src/components/Dashboard.tsx:556 | `x\|\|\|y` in `z` and `x` in `y\|\|\|z` give the same text key |
| Ads.AsWrittenMergesCollidingPairs | src/components/Dashboard.tsx:551-558 | two such rows: the loop as written keeps one pair, the pairs are two |
| Ads.PairCombos | src/components/Dashboard.tsx:551-558 | the combinations of two rows, as written and by pair |
| Ads.CollidingPairsExample | src/components/Dashboard.tsx:551-558 | a concrete two-row input with one listed combination as written and two pairs |
| Ads.ComboHasLeads | src/components/Dashboard.tsx:559-560 | every listed pair has a lead |
| Ads.ComboGroupsPartition | src/components/Dashboard.tsx:559-560 | the pairs' groups partition the rows with an ad and an adset |
| Ads.AdQualityBounds | src/components/Dashboard.tsx:560-564 | high-income leads are some of a pair's leads, their share is a percentage, the score within 0..7 |
| Ads.AllAdsDataSpec | src/components/Dashboard.tsx:547-566 | the ads table is ordered by leads, has each pair once with its figures, and sums to the rows with an ad and an adset |
| Ads.AllAdsData | src/components/Dashboard.tsx:547-566 | specified by `Ads.AllAdsDataSpec` |
| Ads.DrillColumns | src/components/Dashboard.tsx:571-572 | the drill-down's repeated candidates read the same ad and adset |
| Ads.AdShareBounds | src/components/Dashboard.tsx:601-603 | an ad's revenue is part of its adset's, and its share is a percentage |
| Ads.AdsSalesSpec | src/components/Dashboard.tsx:582-599 | the ads sales table is ordered by revenue and has each pair once with its figures |
| Ads.DrillOfSpec | src/components/Dashboard.tsx:601-605 | an adset's entry lists its ads that sold, with their share, most revenue first |
| Ads.DrillAdsSpec | src/components/Dashboard.tsx:602-604 | the same, for the ads list built from the adset's revenue |
| Ads.PickedShare | src/components/Dashboard.tsx:602-604 | a listed ad is a pair of the adset that sold, with a percentage share |
| Ads.DrillDownSpec | src/components/Dashboard.tsx:569-608 | the drill-down is ordered by adset revenue and holds exactly the adsets that sold, with their figures |
| Ads.DrillDown | src/components/Dashboard.tsx:569-608 | specified by `Ads.DrillDownSpec` |
| Sorting.Sort | src/components/Dashboard.tsx:464 | sorting keeps the length |
| Sorting.SortPermutes | src/components/Dashboard.tsx:464 | sorting is a permutation |
| Sorting.SortSorted | src/components/Dashboard.tsx:464 | by a total preorder, the result is sorted |
| Sorting.SortSum | src/components/Dashboard.tsx:706 | sorting leaves a sum unchanged |
| Sorting.SortSumNat | src/components/Dashboard.tsx:464 | sorting leaves a count total unchanged |
| Sorting.SortMember | src/components/Dashboard.tsx:464 | sorting keeps exactly the elements |
| Sorting.SortDistinct | src/components/Dashboard.tsx:464 | sorting keeps keys distinct |
| Sorting.RankedTable | src/components/Dashboard.tsx:460-465 | a table `keys.map(entry).sort(cmp)` is ordered, names each key once and holds exactly the keys' entries |
| Sorting.SortedImage | src/components/Dashboard.tsx:602-604 | `xs.filter(p).map(f).sort(cmp)` is ordered and holds exactly the images of the passing elements |
| Sorting.LexLeTotalPreorder | src/components/Dashboard.tsx:647 | code-point order is a total preorder |
| Sorting.SortedStrings | src/components/Dashboard.tsx:647 | `Object.keys(o).sort()` is ascending, has each key once, and the same keys |
| Tally.NewKeysSpec | src/components/Dashboard.tsx:633-640 | a key is listed exactly when it was there or a passing element has it, never twice |
| Tally.EntryMissing | src/components/Dashboard.tsx:633-640 | an unlisted key has the empty entry |
| Tally.EntryUnchanged | src/components/Dashboard.tsx:642-643 | an element leaves other keys' entries unchanged |
| Tally.EntryStep | src/components/Dashboard.tsx:642-643 | an element applies its update to its own key's entry |
| Tally.TallyOne | src/components/Dashboard.tsx:633-643 | one pass of the create-then-update loop keeps every entry right |
| Tally.TallyAll | src/components/Dashboard.tsx:617-645 | the whole loop leaves each key with its folded entry |
| Tally.ReadOut | src/components/Dashboard.tsx:647 | `keys.map(k => map[k])` reads the entries out |
| Monthly.FoldSales | src/components/Dashboard.tsx:633-643 | a month's updates count its sales and sum their amounts |
| Monthly.SalesEntry | src/components/Dashboard.tsx:617-645 | the dictionary holds each month's bucket |
| Monthly.BucketsOrdered | src/components/Dashboard.tsx:647 | the months are strictly ascending |
| Monthly.BucketsEntries | src/components/Dashboard.tsx:633-643 | each entry is its month's bucket, with a sale |
| Monthly.BucketsCover | src/components/Dashboard.tsx:617-647 | every counted element's month is listed |
| Monthly.BucketsTotal | src/components/Dashboard.tsx:617-647 | the counts add up to the counted elements |
| Monthly.BucketsRevenue | src/components/Dashboard.tsx:620-621 | every month's revenue is positive |
| Monthly.TallySales | src/components/Dashboard.tsx:617-647 | the loop and its read-out compute the monthly table |
| Monthly.GetSalesDataByDateType | src/components/Dashboard.tsx:611-648 | `getSalesDataByDateType` computes the monthly sales table |
| Monthly.SalesByMonthSpec | src/components/Dashboard.tsx:611-648 | months ascending, one per month with a sale, each its bucket, every dated sale covered, counts summing to the dated sales |
| Monthly.SalesByMonth | src/components/Dashboard.tsx:611-648 | specified by `Monthly.SalesByMonthSpec` |
| Monthly.TicketsSpec | src/components/Dashboard.tsx:820-826 | every month's ticket is positive and multiplies back to the revenue |
| Monthly.TemporalSalesSpec | src/components/Dashboard.tsx:820-826 | the temporal sales are the sale-date months with a positive ticket that multiplies back to the revenue |
| Monthly.TemporalSales | src/components/Dashboard.tsx:820-826 | specified by `Monthly.TemporalSalesSpec` |
| Overview.FoldLeads | src/components/Dashboard.tsx:756-760 | a month's lead updates count its leads and its qualified and high-income leads |
| Overview.LeadStart | src/components/Dashboard.tsx:764-776 | the second loop starts each month from its lead tally |
| Overview.TableSales | src/components/Dashboard.tsx:775 | the sales loop sets a month's count from the sales table |
| Overview.SalesTableFacts | src/components/Dashboard.tsx:747 | the sales table has one entry per month, with that month's count |
| Overview.OverviewEntryCorrect | src/components/Dashboard.tsx:751-776 | after both loops every month holds its entry |
| Overview.BuildOverview | src/components/Dashboard.tsx:748-778 | the two loops and the read-out compute the overview table |
| Overview.GetTemporalOverviewData | src/components/Dashboard.tsx:744-779 | `getTemporalOverviewData` computes the overview table |
| Overview.OverviewMonthsSpec | src/components/Dashboard.tsx:751-778 | a month is listed exactly when a lead or a sale falls in it, never twice |
| Overview.OverviewMonth | src/components/Dashboard.tsx:751-778 | one month is listed exactly when a lead was created or a sale made in it |
| Overview.SaleMonthListed | src/components/Dashboard.tsx:747 | the sales table has a month exactly when a sale falls in it |
| Overview.HighAmongQualified | src/components/Dashboard.tsx:759-760 | high-income leads are among the qualified ones |
| Overview.MonthHasActivity | src/components/Dashboard.tsx:751-776 | a listed month has a lead or a sale |
| Overview.OverviewTableSpec | src/components/Dashboard.tsx:744-779 | ascending months, each its entry with activity and high-income within qualified within leads |
| Overview.OverviewTable | src/components/Dashboard.tsx:744-779 | specified by `Overview.OverviewTableSpec`, `Overview.OverviewTableOrder` and `Overview.OverviewRow` |
| Overview.OverviewTableOrder | src/components/Dashboard.tsx:778 | the rows come in strictly ascending month order |
| Overview.OverviewRow | src/components/Dashboard.tsx:756-776 | a listed month's row carries its own key, has high-income within qualified within leads, and some lead or sale |
| Overview.OverviewLeadsTotal | src/components/Dashboard.tsx:751-761 | the leads add up to the counted leads |
| Overview.OverviewSalesTotal | src/components/Dashboard.tsx:764-776 | the sales add up to the counted sales |
| Overview.DashboardHighQualified | src/components/Dashboard.tsx:435-443 | every high-income answer is a qualified one |
| Overview.TemporalOverviewSpec | src/components/Dashboard.tsx:744-779 | the dashboard's overview is ascending by month, each month with its own counts |
| Overview.TemporalOverviewMonths | src/components/Dashboard.tsx:751-778 | a month is listed exactly when a creation date or a sale date falls in it |
| Overview.TemporalOverviewTotals | src/components/Dashboard.tsx:744-779 | the leads add up to the dated rows, and the sales to the dated sales |
| AdsetMonths.FoldLeadCounts | src/components/Dashboard.tsx:798 | a cell's lead updates count its leads |
| AdsetMonths.FoldSaleCounts | src/components/Dashboard.tsx:813 | a cell's sale updates count its sales |
| AdsetMonths.CellEntryCorrect | src/components/Dashboard.tsx:790-814 | after both passes every cell holds its entry |
| AdsetMonths.BuildAdsetMonths | src/components/Dashboard.tsx:787-816 | the two passes and the sorted read-out compute the table |
| AdsetMonths.GetTemporalAdsetData | src/components/Dashboard.tsx:782-817 | `getTemporalAdsetData` computes the table |
| AdsetMonths.MonthLeTotalPreorder | src/components/Dashboard.tsx:816 | the month comparison is a total preorder |
| AdsetMonths.CellsSpec | src/components/Dashboard.tsx:790-814 | a cell is created exactly when a lead or a sale falls in it, never twice |
| AdsetMonths.CellHasActivity | src/components/Dashboard.tsx:790-814 | a created cell shows a lead or a sale |
| AdsetMonths.AdsetMonthTableShape | src/components/Dashboard.tsx:816 | sorted by month, one entry per cell, exactly the created cells' entries |
| AdsetMonths.AdsetMonthTableSpec | src/components/Dashboard.tsx:787-816 | every entry has activity, and every lead's and sale's cell is in the table |
| AdsetMonths.AdsetMonthLeadsTotal | src/components/Dashboard.tsx:790-799 | the leads add up to the counted leads |
| AdsetMonths.AdsetMonthSalesTotal | src/components/Dashboard.tsx:802-814 | the sales add up to the counted sales |
| AdsetMonths.MonthKeyNoBar | src/components/Dashboard.tsx:276 | a month key never holds `\|` |
| AdsetMonths.CellKeysAgree | src/components/Dashboard.tsx:796 | the text key `${monthKey}\|\|\|${adset}` names the same cell exactly when month and adset agree |
| AdsetMonths.TemporalAdsetSpec | src/components/Dashboard.tsx:782-817 | sorted, one entry per cell with its counts, every dated lead and sale covered, totals summing to them |
| Conversion.ReadSale | src/components/Dashboard.tsx:839-859 | a record exists exactly when the row converts, with a positive amount and its day count |
| Conversion.CollectAll | src/components/Dashboard.tsx:836-864 | the pushing loop collects the records |
| Conversion.CollectSpec | src/components/Dashboard.tsx:836-864 | one record per readable element, each read off an element |
| Conversion.GetConversionTimeAnalysis | src/components/Dashboard.tsx:829-865 | `getConversionTimeAnalysis` computes the records |
| Conversion.ConversionsSpec | src/components/Dashboard.tsx:829-865 | one record per converting row, each with a positive amount and its whole days |
| Conversion.Conversions | src/components/Dashboard.tsx:829-865 | specified by `Conversion.ConversionsSpec` |
| Conversion.FoldConversions | src/components/Dashboard.tsx:877-892 | a month's updates collect its days, count its sales and its qualified ones |
| Conversion.GetConversionTimeByMonth | src/components/Dashboard.tsx:868-908 | `getConversionTimeByMonth` computes the monthly summaries |
| Conversion.SortedEnds | src/components/Dashboard.tsx:898-905 | every element of an ascending list lies between its first and last |
| Conversion.MeanWithin | src/components/Dashboard.tsx:899 | a mean of terms between two bounds lies between them |
| Conversion.StatsSpec | src/components/Dashboard.tsx:897-906 | days sorted and a permutation, counts consistent, minimum, median and maximum in order, with the mean between |
| Conversion.Stats | src/components/Dashboard.tsx:897-906 | specified by `Conversion.StatsSpec` |
| Conversion.ByMonthAt | src/components/Dashboard.tsx:896-907 | entry `i` summarises the `i`-th month in sorted order |
| Conversion.ByMonthOrdered | src/components/Dashboard.tsx:896 | months strictly ascending, each its group's summary |
| Conversion.ByMonthCovers | src/components/Dashboard.tsx:876-896 | every conversion's month is present, and the sales add up to the conversions |
| Conversion.ByMonthEach | src/components/Dashboard.tsx:876-896 | every conversion's month has its statistics row |
| Conversion.ByMonthTotal | src/components/Dashboard.tsx:876-896 | the rows' sale counts add up to the number of conversions |
| Conversion.ConversionTimeByMonthSpec | src/components/Dashboard.tsx:868-908 | the dashboard's months: ascending, summarised, covering, summing to the converting rows |
| Conversion.ConversionTimeByMonth | src/components/Dashboard.tsx:868-908 | specified by `Conversion.ConversionTimeByMonthSpec` and `Conversion.ConversionMonthBounds` |
| Conversion.ConversionMonthBounds | src/components/Dashboard.tsx:896-907 | each month's days sorted, counted and bounded as in `StatsSpec` |
| TimeSlots.SlotEntrySnoc | src/components/Dashboard.tsx:927-948 | one more row changes only its slot |
| TimeSlots.SlotsSnoc | src/components/Dashboard.tsx:927-948 | the slot array after one more row |
| TimeSlots.CountSlots | src/components/Dashboard.tsx:927-948 | the loop over the slot array computes the slots |
| TimeSlots.LeadInOneSlot | src/components/Dashboard.tsx:933-934 | a lead lands in its own slot and no other |
| TimeSlots.SlotOfBounds | src/components/Dashboard.tsx:934-947 | high-income within qualified within leads, sales within leads, revenue positive exactly with a sale |
| TimeSlots.SlotsSpec | src/components/Dashboard.tsx:911-957 | `n` slots, slot `j` at place `j` with its leads, each within the bounds |
| TimeSlots.SlotsLeadsTotal | src/components/Dashboard.tsx:927-948 | the slots' leads add up to all leads |
| TimeSlots.SlotsSalesTotal | src/components/Dashboard.tsx:927-948 | the slots' sales add up to the leads with a sale |
| TimeSlots.RatedSpec | src/components/Dashboard.tsx:950-956 | every rate is a percentage, 0 without leads; the ticket is 0 without sales, else positive and multiplies back to the revenue |
| TimeSlots.HourLabel | src/components/Dashboard.tsx:967 | a label is five characters ending in `:00` |
| TimeSlots.GetWeekdayAnalysis | src/components/Dashboard.tsx:911-957 | `getWeekdayAnalysis` computes the weekday table |
| TimeSlots.GetHourlyAnalysis | src/components/Dashboard.tsx:960-1005 | `getHourlyAnalysis` computes the hourly table |
| TimeSlots.DashboardSlotFacts | src/components/Dashboard.tsx:937-946 | the dashboard's tests meet the requirements of `SlotsSpec` |
| TimeSlots.WeekdayAnalysisSpec | src/components/Dashboard.tsx:911-957 | seven weekdays from Sunday, each rated, leads summing to the dated rows and sales to the dated sales |
| TimeSlots.WeekdayAnalysis | src/components/Dashboard.tsx:911-957 | specified by `TimeSlots.WeekdayAnalysisSpec` |
| TimeSlots.HourlyAnalysisSpec | src/components/Dashboard.tsx:960-1005 | twenty-four hours `00:00` to `23:00`, each rated, with the same totals |
| TimeSlots.HourlyAnalysis | src/components/Dashboard.tsx:960-1005 | specified by `TimeSlots.HourlyAnalysisSpec` |
| Campaign.FirstFrom | src/services/dataService.ts:124-137 | the search stops at the first campaign row from `j` on, or at the end |
| Campaign.CampaignLead | src/services/dataService.ts:124-137 | none exactly when no row has campaign data, else a campaign row of the input |
| Campaign.FindCampaignLead | src/services/dataService.ts:122-138 | the search loop computes `campaignLead` |
| Campaign.FirstCampaignRow | src/services/dataService.ts:124-137 | rows before the first campaign row are skipped, whatever follows |
| Campaign.ExtractManualData | src/services/dataService.ts:112-229 | null exactly without a campaign row; otherwise the fixed LTV and margin and the figures of the first campaign row |
| Campaign.Figures | src/services/dataService.ts:140-229 | specified by `Campaign.ExtractManualData`, `Campaign.CampaignScalarsFromFirstRow` and `Campaign.TotalsByRow` |
| Campaign.ExtractManualDataFromCsv | src/services/dataService.ts:112-229 | the extractor's steps compute `extractManualDataFromCSV` |
| Campaign.CampaignScalarsFromFirstRow | src/services/dataService.ts:214-227 | the campaign scalars come from the first campaign row; later rows never change them |
| Campaign.ProductFiguresAppend | src/services/dataService.ts:178-209 | counts and revenue add up over any split of the rows |
| Campaign.SalesCountSpec | src/services/dataService.ts:197-208 | a product's count is at most the rows, and 0 exactly when no amount is positive |
| Campaign.RevenueOfSales | src/services/dataService.ts:178-192 | revenue is non-negative, and positive exactly when the product sold |
| Campaign.SalesCountIsDashboardTest | src/services/dataService.ts:197-203 | the per-product count is the rows the dashboard's sale test accepts |
| Campaign.ProductFiguresCons | src/services/dataService.ts:178-203 | one more row at the front of a product's figures |
| Campaign.CountsByRow | src/services/dataService.ts:205-209 | the four counts add up to the row-by-row products bought |
| Campaign.RevenuesByRow | src/services/dataService.ts:178-194 | the four revenues add up to the row-by-row amounts |
| Campaign.TotalsByRow | src/services/dataService.ts:178-209 | `vendas_efetuadas` and `faturamento_total` are the row-by-row totals |
| Campaign.SalesAtMostFourPerRow | src/services/dataService.ts:205-209 | no row counts for more than four products |
| Campaign.ToDateOrNull | src/services/dataService.ts:46-49 | null exactly for a blank value, else the value |
| Campaign.MapLead | src/services/dataService.ts:52-86 | the sale aliases share the planning cell, raw data is the row, the phone is empty, and each alias falls back as written |
| Campaign.RawDataRoundTrip | src/services/dataService.ts:84 | the rows come back, in order, from the records' `raw_data` |
| Campaign.MapLeads | src/services/dataService.ts:52-86 | specified by `Campaign.MapLead` and `Campaign.RawDataRoundTrip` |
| AdsetScript.AdsetsSpec | check_adset_sales_data.py:56 | the adsets are strictly ascending and exactly the non-empty adset names |
| AdsetScript.GetSalesAndRevenue | check_adset_sales_data.py:62-70 | the loop computes `get_sales_and_revenue` |
| AdsetScript.SalesOfSpec | check_adset_sales_data.py:62-70 | revenue adds only positive amounts; no sales exactly when no amount is positive |
| AdsetScript.AdsetSalesOf | check_adset_sales_data.py:59-93 | one turn of the adset loop builds the adset's entry |
| AdsetScript.AnalyzeAdsetSales | check_adset_sales_data.py:58-93 | the adset loop computes the table |
| AdsetScript.EntrySpec | check_adset_sales_data.py:72-79 | totals over three products, zero ticket without sales, zero rate without leads, at most three sales per lead |
| AdsetScript.EntryOfSpec | check_adset_sales_data.py:58-79 | every adset entry keeps those guards |
| AdsetScript.EntryOf | check_adset_sales_data.py:58-79 | specified by `AdsetScript.EntryOfSpec` and `AdsetScript.GroupOfNamed` |
| AdsetScript.RateBound | check_adset_sales_data.py:78-79 | at most three sales per lead give a rate of at most 300 per cent |
| AdsetScript.GroupOfNamed | check_adset_sales_data.py:59 | an adset's group is its leads with that name |
| AdsetScript.AdsetLeadsTotal | check_adset_sales_data.py:56-60 | the adsets' leads add up to the leads with an adset name |
| AdsetScript.AdsetTable | check_adset_sales_data.py:56-93 | specified by `AdsetScript.AnalyzeAdsetSales`, `AdsetScript.AdsetsSpec` and `AdsetScript.EntryOfSpec` |
| UploadScript.NaiveFields | scripts/upload-to-supabase.js:46 | one field per piece of the plain split |
| UploadScript.FillRow | scripts/upload-to-supabase.js:49-51 | the filled row is the row built from headers and values |
| UploadScript.ParseUploadCsv | scripts/upload-to-supabase.js:27-57 | the loop computes the uploader's rows |
| UploadScript.UploadRowsSpec | scripts/upload-to-supabase.js:41-56 | one row per non-blank line after the first, one key per distinct header holding the last field under it or `''` |
| UploadScript.UploadRows | scripts/upload-to-supabase.js:27-57 | specified by `UploadScript.UploadRowsSpec` and `UploadScript.NoDataNoRows` |
| UploadScript.NoDataNoRows | scripts/upload-to-supabase.js:28-29 | an empty file or a lone header line gives no rows |
| UploadScript.NaiveQuotedLine | scripts/upload-to-supabase.js:46 | the uploader splits `"a,b"` into `a` and `b` |
| UploadScript.DashboardQuotedLine | src/components/Dashboard.tsx:100-117 | the dashboard reads `"a,b"` as the single field `a,b` |
| UploadScript.QuotedCommaSplitsApart | scripts/upload-to-supabase.js:46 | the uploader and the dashboard read the same quoted line differently |
| UploadScript.MapLeadData | scripts/upload-to-supabase.js:60-82 | raw data is the row, missing keys give `''`, and each alias falls back as written |
| UploadScript.RawDataRoundTrip | scripts/upload-to-supabase.js:79 | the rows come back, in order, from the records' `raw_data` |
| UploadScript.ExtractManualData | scripts/upload-to-supabase.js:85-130 | null exactly when the file is empty or the first row lacks campaign data; else fixed LTV and margin, sales the "sim" rows, budget from the first row |
| UploadScript.RevenueOverSimRows | scripts/upload-to-supabase.js:110-118 | revenue sums the amounts of the "sim" rows only; 0 without a sale |
| UploadScript.SaleFlagIsEither | scripts/upload-to-supabase.js:106 | the repeated alternatives of the flag change nothing |
| UploadScript.CampaignRowOnlyFirst | scripts/upload-to-supabase.js:95-101 | a campaign row after the first is ignored here but found by the dashboard's service |
| CleanDuplicates.KeysAgree | scripts/clean-duplicates.cjs:45-46 | without `\|` in the e-mails, two leads share a key exactly when e-mail and phone presence agree, and phones agree when present |
| CleanDuplicates.BarInEmailCollides | scripts/clean-duplicates.cjs:46 | a `\|` in an e-mail lets a lead without a phone share a key with one with a phone |
| CleanDuplicates.ScanStep | scripts/clean-duplicates.cjs:48-52 | one step of the scan keeps the map, the kept list and the duplicates right |
| CleanDuplicates.PartitionCount | scripts/clean-duplicates.cjs:40-53 | kept and set aside together are every lead |
| CleanDuplicates.DroppedHaveKeptKey | scripts/clean-duplicates.cjs:48-49 | every duplicate has the key of an earlier kept lead |
| CleanDuplicates.NoneDroppedIffDistinct | scripts/clean-duplicates.cjs:58 | no duplicates exactly when no two leads share a key |
| CleanDuplicates.KeptRankHighest | scripts/clean-duplicates.cjs:31 | over input ordered by a non-increasing rank, each kept lead ranks highest for its key |
| CleanDuplicates.IdentifyDuplicates | scripts/clean-duplicates.cjs:40-53 | the map's keys and values, the kept leads in insertion order and the duplicates, with size plus duplicates equal to the leads |
| CleanDuplicates.CleanDuplicates | scripts/clean-duplicates.cjs:58-80 | the decision after the scan: nothing to do, or rebuild with the kept leads |
| CleanDuplicates.CleanupSpec | scripts/clean-duplicates.cjs:58-80 | nothing is done exactly when keys are distinct; otherwise the inserted leads are distinct, first of each key, a subsequence, cover every key, and add up with the removed ones |
| CleanDuplicates.CleanupOf | scripts/clean-duplicates.cjs:58-80 | specified by `CleanDuplicates.CleanupSpec` and `CleanDuplicates.KeepsNewest` |
| CleanDuplicates.KeepsNewest | scripts/clean-duplicates.cjs:31 | fetched newest first, the kept lead of each key is the newest |
| CleanDuplicates.RemovedHaveKeptTwin | scripts/clean-duplicates.cjs:48-49 | every removed lead shares its key with an inserted lead |

## Findings

| source | as written | input that shows it | evidently intended | confidence | as-written member | corrected member |
|---|---|---|---|---|---|---|
| src/components/Dashboard.tsx:371 | `uniqueBuyers` (and `uniquePlanejamentoBuyers`, line 413) adds `row.email \|\| ''` to the set of buyers. Rows keep the header's own spelling, so a file whose e-mail header is `Email` has no `email` key. | A file with header `Email;Venda_planejamento` and two leads `a@x.co;R$ 10,00` and `b@x.co;R$ 20,00`: the funnel shows 1 unique buyer | one buyer per distinct e-mail, read with the same resolver `parseCSV` uses, giving 2 | not executed | Funnel.AsWrittenMiscountsCapitalisedHeader | Funnel.BuyersOfLeads |
| src/components/Dashboard.tsx:556 | `getAllAdsData` (and the drill-down at line 579) tells ad/adset pairs apart by the text key `${ad}\|\|\|${adset}` | ad `a\|\|\|b` in adset `c`, and ad `a` in adset `b\|\|\|c`: one combination is listed and the second pair's leads are never reported | one combination per distinct pair | not executed | Ads.AsWrittenMergesCollidingPairs | Ads.CombosSpec |

The first finding reaches the funnel ratios: `Funnel.DashboardRatiosAsWritten` computes them over the
as-written counts and `Funnel.DashboardRatios`, the corrected half, over the counts keyed by e-mail.
`Funnel.AsWrittenCacIsWholeBudget` shows the difference in CAC.

## Left out

- Dates are produced by a parser parameter: `parseDate` (`src/components/Dashboard.tsx:271`) relies on JavaScript's `Date` parsing and the local time zone, which are not modelled; every property holds for any parser.
- `getMonthName`, `toLocaleDateString`, `toFixed` and `toLocaleString` produce display text only; month names and the `saleMonth` label are not modelled.
- `localeCompare` in `getTemporalAdsetData` is modelled as code-point order of the month keys, which coincides with it on the digit-and-dash keys.
- The rendering of charts, tables, filters and the rest of the React component is display logic and is not modelled.
- Supabase I/O (fetch, `delete`, `insert`, `upsert`, counts and error handling) is external; the clean-up's outcome is the `Cleanup` value saying what would be deleted and inserted, and the uploads are their mapped records.
- `useDataManager` and the other context files are callers and not part of this model.
- The function headers at `src/components/Dashboard.tsx:651` and `:710` are commented out, which leaves their bodies orphaned in the source. The model reads lines 652-680 as the adset quality table (`Grouping.AdsetQualitySpec`). It reads lines 711-741 as a second copy of `getAllAdsData` (`Ads.AllAdsDataSpec`), since they compute the same thing.
- `getTemporalAdsetData` keys its cells by the text `${monthKey}|||${adset}`; the model keys them by the pair, which `AdsetMonths.CellKeysAgree` shows names the same cells.
- Ads.FiguresTicket: states that the ticket is 0 without sales and positive with them; the revenue-per-sale identity is stated by `Ads.TicketOf` rather than for each figure record.
- JavaScript object keys that look like integers are enumerated first by `Object.keys`; CSV headers are modelled as keys in insertion order.
- The uploader's `if (!line) continue` (`scripts/upload-to-supabase.js:44`) cannot fire, because blank lines were filtered out already; the model has no such branch.
- The copy of `getColumnValue` in `src/services/dataService.ts:155-170` is modelled by the same `Columns.ColumnValue`, since it does the same three passes.
- JavaScript's `parseFloat` of `Infinity` and `parseInt` of bases other than 10 and 16 are not modelled; a cell reading `Infinity` is taken as not a number.
- `toLowerCase` is modelled for ASCII and Latin-1 letters only.
- AmountFacts.JsReadsWhatPythonReads: stated for strings without `_`. Python's `float` accepts underscores between digits and `parseFloat` stops at them, so the two disagree on `1_000`, as `AmountFacts.UnderscoreSplitsReaders` shows.
- AmountFacts.PythonAgreesWithDashboard: stated for cells without `_`, for the same reason; `AmountFacts.UnderscoreSplitsReaders` covers the grouped cells.
- Amounts.PyFloat: the words `inf`, `infinity` and `nan` (with any case and sign), non-ASCII digits and non-ASCII white space, which `float` also accepts, are not modelled; such a cell is taken as a `ValueError`. An `inf` cell would count as a sale of infinite revenue in the script, and a `nan` cell as no sale.
- Numbers: JavaScript and Python doubles are modelled as exact `real` values. Rounding, overflow to `Infinity` and `NaN` results of arithmetic are not modelled.
- Income.IncomeScore: an income cell spelling an `Object.prototype` name such as `constructor` or `toString` finds a function in the score table (`src/components/Dashboard.tsx:425-433`), not 0; the model gives it 0.
- Columns.Put: a header named `__proto__` sets the row's prototype at `src/components/Dashboard.tsx:134` and adds no own key; the model adds it as a key like any other.
- The e-mail regular expression is a hand-written predicate with the same acceptance.
- The Python script's pandas reading (NaN cells, dtypes, the encoding retry) and its `print` reports are I/O; rows are read as strings, a missing cell as `''`.
