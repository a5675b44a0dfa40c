# FINporterFido in Dafny

This project models the three Fidelity importers of FINporterFido, plus the
date helper they share:

- **FidoHistory** reads account-history exports. It detects the
  "Brokerage" banner and header. It cuts the CSV block out of the
  surrounding text. It classifies each row's action (buysell, transfer,
  income, miscflow) by the first matching prefix. It then builds a
  transaction according to that action's rules.
- **FidoPositions** reads position exports. It emits one source-meta
  record per document, or decodes each row into an account, a holding or a
  security, as chosen by an explicit output schema. This includes the
  "n/a" share-basis reconstruction.
- **FidoSales** reads realized gain/loss exports. It takes the account ID
  from the file's URL, and records each row as a sale of the negated
  quantity at proceeds ÷ quantity.
- **parseFidoMMDDYYYY** turns an `MM/dd/yyyy` date into an instant. It
  appends a time of day and uses a formatter fixed to the caller's time
  zone.

Every decoder folds its tokenized rows once (`reduce(into:)`). A decoded
row goes to the output and any other row goes to the caller's `inout`
reject sink. The fold is modelled as a `while` loop. It is proved equal to
the generic stream functions `RowStream.Decoded` and `RowStream.Rejected`,
and the lemmas about those functions state partition, order and prefix
preservation once for all decoders.

An `inout` sink is modelled as copy-in/copy-out: `rejectedIn` is the value
passed in and `rejectedRows` the value written back.

The code this model cannot see is gathered in `Rows.Env`, a record of total
functions. It covers:

- byte decoding (`normalizeDecode`);
- the SwiftCSV tokenizer;
- AllocData's `parseString` and `parseDouble`;
- the two DateFormatters.

Every property is proved for all such functions.

The two regular expressions that do more than find a literal are modelled
as scans over LF text (module `Block`):

- the CSV-block pattern `prefix(?:.+(\n|\Z))+`;
- the exported-at pattern `(?<="Date downloaded ).+(?=")`.

The sales account pattern `[A-Za-z0-9]+(?=\.)` is modelled the same way
(`FidoSales.IdScanFrom`). Header detection patterns contain no
metacharacters other than escaped ones, so they are literal substring tests
(`Text.Contains`).

Files:

- `wrappers.dfy`: Option and Result.
- `rows.dfy`: raw and decoded rows, schemas, coding keys, the environment.
- `row_stream.dfy`: the fold.
- `text.dfy`: prefixes, substrings and Swift `split`.
- `block.dfy`: the two regex scans.
- `date_formatter.dfy`, `history.dfy`, `positions.dfy`, `sales.dfy`: one
  per source file.

## Model

| member | source | states |
|---|---|---|
| Rows.Capabilities | Sources/FidoHistory.swift:53-55 | the detect result has exactly the listed schemas as keys, each offered as [CSV] once when no schema is listed twice |
| Rows.DetectHeader | Sources/FidoHistory.swift:45-56 | every listed schema as a key, offered as [CSV] when none is listed twice, if the bytes decode and contain the header; otherwise no keys |
| RowStream.StreamsConcatenate | Sources/FidoHistory.swift:94-117 | folding a concatenation is folding each part in turn, for output, sink and accepted rows: row order is kept and rows are independent |
| RowStream.OneRow | Sources/FidoHistory.swift:107-116 | one row goes to the output (as its decoding) when it decodes, otherwise to the sink |
| RowStream.EveryRowOnce | Sources/FidoHistory.swift:94-117 | accepted and rejected rows together are exactly the input as a multiset, and there is one decoded row per accepted row |
| RowStream.RejectedAreFailures | Sources/FidoHistory.swift:102-113 | a row reaches the sink if and only if it is an input row that does not decode |
| RowStream.DecodedAreSuccesses | Sources/FidoHistory.swift:116 | a record is in the output if and only if some input row decodes to it |
| RowStream.AllRejected | Sources/FidoPositions.swift:127-129 | when no row decodes, the output is empty and the sink receives every row in order |
| Text.ContainsIffOccurs | Sources/FidoHistory.swift:47-48 | the literal search succeeds if and only if the pattern occurs at some index |
| Text.ContainsInner | Sources/FidoHistory.swift:36-43 | an occurrence of a text implies an occurrence of every part of it |
| Text.NextIndex | Sources/FidoHistory.swift:43 | the first occurrence of a character at or after a position, or the end, with none in between |
| Text.SplitFrom | Sources/FidoHistory.swift:100 | `split` yields non-empty pieces without the separator, and none exactly when only separators remain |
| Text.FirstPieceBounds | Sources/FidoSales.swift:93 | the first piece is the first maximal separator-free run, preceded only by separators |
| Text.LastPieceBounds | Sources/FidoHistory.swift:100 | the last piece is the last maximal separator-free run, followed only by separators |
| Text.FirstPieceShape | Sources/FidoSales.swift:93 | `.first` is nil if and only if the text is all separators, and otherwise is the first maximal run |
| Text.LastPieceShape | Sources/FidoHistory.swift:100 | `.last` is nil if and only if the text is all separators, and otherwise is the last maximal run |
| Text.FirstRunUnique | Sources/FidoSales.swift:93 | the first maximal run is unique |
| Text.LastRunUnique | Sources/FidoHistory.swift:100 | the last maximal run is unique |
| Block.BlockStartFrom | Sources/FidoHistory.swift:74 | the leftmost index where the header prefix is followed by more of its line |
| Block.RunEnd | Sources/FidoHistory.swift:43 | the block extends over non-empty lines up to the first blank line or the end of the text |
| Block.ExtractBlockShape | Sources/FidoHistory.swift:43 | about `Block.ExtractBlock`: a block exists if and only if the pattern matches somewhere; it starts at the leftmost match, contains no blank line after the prefix, and stops at a blank line or the end |
| Block.NoPrefixNoBlock | Sources/FidoHistory.swift:74-84 | without the header prefix there is no block |
| Block.HeaderPartsGiveBlock | Sources/FidoHistory.swift:43 | a text containing the block prefix directly followed by more of its line always has a block |
| Text.ContainsSuffix | Sources/FidoHistory.swift:36-43 | a text containing `pre + p` contains `p` |
| Block.HeaderGivesBlock | Sources/FidoHistory.swift:43 | a text containing a header whose prefix is followed by more of its line always has a block |
| Block.LastQuote | Sources/FidoPositions.swift:83 | the last quote in a range, with no quote after it |
| Block.DateMatchEndMeaning | Sources/FidoPositions.swift:83 | a match from a given start ends at the greatest quote on the same line, and there is none when no quote follows |
| Block.DateScanFrom | Sources/FidoPositions.swift:84 | the leftmost start at which the exported-at pattern matches |
| Block.DateDownloadedShape | Sources/FidoPositions.swift:82-86 | about `Block.DateDownloaded`: the exported-at text is absent if and only if the pattern matches nowhere; otherwise it is non-empty, follows the marker, runs to the last quote on its line and starts at the leftmost match |
| FidoDateFormatter.DateString | Sources/FidoDateFormatter.swift:47 | the composed string is the date, one space and the time of day |
| FidoDateFormatter.ParseFidoMMDDYYYY | Sources/FidoDateFormatter.swift:34-50 | nil without a date or when the time of day is not five characters long; otherwise the formatter's reading of date + " " + time in the given zone |
| FidoDateFormatter.NoTimeOfDayIsNoon | Sources/FidoDateFormatter.swift:38 | a missing time of day means "12:00" |
| FidoDateFormatter.DateStringSplits | Sources/FidoDateFormatter.swift:47 | the composed string splits back into the date and the five-character time |
| FidoDateFormatter.DateStringInjective | Sources/FidoDateFormatter.swift:47 | different dates or times reach the formatter as different strings |
| FidoDateFormatter.OnlyTheGivenZone | Sources/FidoDateFormatter.swift:43-48 | the result depends only on the formatter's readings in the zone passed in |
| FidoHistory.Detect | Sources/FidoHistory.swift:45-56 | {allocTransaction: [CSV]} if and only if the text decodes and contains the banner, a blank line and the header; otherwise empty |
| FidoHistory.DetectedTextHasBlock | Sources/FidoHistory.swift:36-43 | text that detection accepts always yields a CSV block |
| FidoHistory.FirstMatchFound | Sources/FidoHistory.swift:125-150 | a non-default classification comes from a table entry that matched |
| FidoHistory.ClassifyIsFirstMatch | Sources/FidoHistory.swift:125-150 | about `FidoHistory.Classify`: the action switch is first-match over the ten prefixes in source order, with miscflow as the default |
| FidoHistory.MiscFlowIffNoMatch | Sources/FidoHistory.swift:147-148 | miscflow if and only if no prefix matches |
| FidoHistory.StartsWithHead | Sources/FidoHistory.swift:127 | a string starting with a prefix shares its first two characters |
| FidoHistory.ClassifyByAnyMatch | Sources/FidoHistory.swift:125-146 | matching any table entry decides the action, whatever its position |
| FidoHistory.MismatchAt | Sources/FidoHistory.swift:127 | a string that differs from a prefix at some position does not start with it |
| FidoHistory.TransferredIsMiscFlow | Sources/FidoHistory.swift:125-150 | "TRANSFERRED FROM VS Z00-123456-1 (Cash)" is miscflow: "TRANSFER OF ASSETS " needs the space at index 8 |
| FidoHistory.DebitCardIsMiscFlow | Sources/FidoHistory.swift:125-150 | "DEBIT CARD PURCHASE" matches no prefix and is miscflow |
| FidoHistory.AccountToken | Sources/FidoHistory.swift:99-101 | the account ID is the last maximal space-free run of the account cell; nil exactly when the cell is all spaces |
| FidoHistory.AccountTokenAfterSpace | Sources/FidoHistory.swift:99-101 | after a final space, a non-empty space-free token is the account ID, whatever precedes it |
| FidoHistory.AccountTokenExample | Sources/FidoHistory.swift:100 | "MY TACTICAL (taxable) X00000000" gives "X00000000" |
| FidoHistory.DecodeRow | Sources/FidoHistory.swift:120-207 | the successive assignments build exactly the per-action transaction record |
| FidoHistory.DecodeDelimitedRows | Sources/FidoHistory.swift:94-117 | the output is the decoded rows in input order, and the sink is its old contents followed by the refused rows |
| FidoHistory.Decode | Sources/FidoHistory.swift:67-85 | throws on undecodable data or a tokenizer failure; no rows without a prefix or block; otherwise the fold over the block's rows |
| FidoHistory.RejectedWithoutRequired | Sources/FidoHistory.swift:96-105 | the guard fails if and only if action, run date or account is missing, the date does not resolve, or the account has no token; such a row is rejected |
| FidoHistory.TransactionRecordKeys | Sources/FidoHistory.swift:152-206 | about `FidoHistory.TransactionRecord`: every transaction carries the classified action, the date and the account, a share count, and only transaction keys |
| FidoHistory.DecodedRowFields | Sources/FidoHistory.swift:152-156 | every decoded row has the classified action, the resolved date and the account token, and only transaction keys |
| FidoHistory.BuySellRule | Sources/FidoHistory.swift:164-174 | a buysell row decodes if and only if symbol, quantity and price parse, and records exactly those |
| FidoHistory.TransferRule | Sources/FidoHistory.swift:176-193 | a security transfer needs a quantity and records the price only when parsed; a cash transfer needs an amount and records it at price 1.0 |
| FidoHistory.CashFlowRule | Sources/FidoHistory.swift:195-203 | income and miscflow need an amount, record it at price 1.0, and have a securityID if and only if a symbol parses |
| FidoPositions.Detect | Sources/FidoPositions.swift:46-57 | all four output schemas as [CSV] if and only if the decoded text contains the header; otherwise empty |
| FidoPositions.DetectedTextHasBlock | Sources/FidoPositions.swift:40-44 | text that detection accepts always yields a CSV block |
| FidoPositions.Ticker | Sources/FidoPositions.swift:139-141 | a ticker, with `*` trimmed, is accepted if and only if it is non-empty and not "Pending Activity" |
| FidoPositions.AccountNumber | Sources/FidoPositions.swift:137-138 | the account number is accepted if and only if it parses and is non-empty |
| FidoPositions.HoldingGuard | Sources/FidoPositions.swift:137-147 | a passing holding guard carries a non-zero share count |
| FidoPositions.Holding | Sources/FidoPositions.swift:135-179 | the holding record, with the sink extended by the row exactly when it is refused |
| FidoPositions.Security | Sources/FidoPositions.swift:181-201 | the security record, with the sink extended by the row exactly when it is refused |
| FidoPositions.Account | Sources/FidoPositions.swift:203-216 | the account record, with the sink extended by the row exactly when it is refused |
| FidoPositions.DecodeDelimitedRows | Sources/FidoPositions.swift:112-133 | the output is the rows decoded under the schema, in order, and the sink gains exactly the other rows |
| FidoPositions.OtherSchemasRejectEveryRow | Sources/FidoPositions.swift:127-129 | under a schema other than account, holding or security, every row goes to the sink |
| FidoPositions.MetaRecord | Sources/FidoPositions.swift:79-95 | exactly four keys: the given ID, the url (or a listed nil), importer "fido_positions", and the exported-at instant, nil when the text is absent or unparsable |
| FidoPositions.SampleExportedAtText | Sources/FidoPositions.swift:82-86 | the quoted "Date downloaded 07/30/2021 2:26 PM ET" line yields "07/30/2021 2:26 PM ET" |
| FidoPositions.Decode | Sources/FidoPositions.swift:59-110 | throws on undecodable data and on a missing schema; source meta gives exactly one record whatever the rows; other schemas fold the block's rows |
| FidoPositions.HoldingRule | Sources/FidoPositions.swift:137-176 | a holding is kept if and only if account, ticker and a non-zero quantity pass; it has accountID, securityID and shareCount, and shareBasis if and only if a basis was found |
| FidoPositions.ShareBasisRule | Sources/FidoPositions.swift:156-172 | about `FidoPositions.ShareBasis`: the parsed per-share basis is kept unless the cell is literally "n/a" and parses to nil or 0; then a price of 1.0 gives 1.0, otherwise a positive total gives total ÷ count |
| FidoPositions.ReconstructedBasisRoundTrip | Sources/FidoPositions.swift:158-170 | when the "n/a" per-share cell parses to nil or to 0, the price is not 1.0 and the total is positive, the reconstructed basis times the share count gives back the total cost |
| FidoPositions.SecurityRule | Sources/FidoPositions.swift:181-200 | a security is kept if and only if the ticker and last price pass; updatedAt is present if and only if a timestamp is given |
| FidoPositions.AccountRule | Sources/FidoPositions.swift:203-215 | an account is kept if and only if the number is non-empty and the name parses, and is exactly {accountID, title} |
| FidoPositions.NoPerShareColumnNoBasis | Sources/FidoPositions.swift:157-166 | every row without a "Cost Basis Per Share" cell, as every row laid out like the export header is, gets no share basis from the columns the code reads, and its holding has no shareBasis key |
| FidoPositions.NaBasisAsWritten | Sources/FidoPositions.swift:157-166 | the "n/a" sample row gets no share basis from the columns the code reads, and its holding has no shareBasis key |
| FidoPositions.NaBasisFromHeaderColumns | Sources/FidoPositions.swift:40 | the same row read through the header's column names gets total ÷ count |
| FidoSales.Detect | Sources/FidoSales.swift:41-52 | {allocTransaction: [CSV]} if and only if the decoded text contains the header; otherwise empty |
| FidoSales.AlnumEnd | Sources/FidoSales.swift:39 | the end of the maximal alphanumeric run starting at a position |
| FidoSales.IdScanFrom | Sources/FidoSales.swift:39 | the leftmost alphanumeric run that is directly followed by a period |
| FidoSales.AccountIDShape | Sources/FidoSales.swift:67-74 | about `FidoSales.AccountIDFromURL`: no account ID if and only if there is no url or no match; otherwise the leftmost maximal alphanumeric run followed by a period |
| FidoSales.AccountIDAfterSeparator | Sources/FidoSales.swift:67-74 | in `pre + id + "." + rest`, where `pre` has no period and does not end alphanumerically, the account ID is `id` |
| FidoSales.SampleAccountID | Sources/FidoSales.swift:67-74 | "Realized_Gain_Loss_Account_X12345678.csv" gives "X12345678" |
| FidoSales.SecurityID | Sources/FidoSales.swift:92-94 | the securityID is the first piece at "(" of the parsed Symbol(CUSIP) cell, nil when the cell is missing or does not parse; it is non-empty and contains no "(" |
| FidoSales.SecurityIDShape | Sources/FidoSales.swift:92-94 | no securityID if and only if the cell is missing, does not parse or holds only "("; otherwise it is the first maximal run without "(", preceded only by "(" |
| FidoSales.SecurityIDExample | Sources/FidoSales.swift:93 | "VEA(100000000)" gives "VEA" |
| FidoSales.LeadingParenthesisSkipped | Sources/FidoSales.swift:93 | "(123)" gives "123)" as empty pieces are dropped |
| FidoSales.SalePrice | Sources/FidoSales.swift:105 | a price exists if and only if the quantity is non-zero, and then price × quantity = proceeds |
| FidoSales.OptNum | Sources/FidoSales.swift:116-126 | a present number is listed as that number, and a nil is listed as a nil value (Null) |
| FidoSales.DecodeSale | Sources/FidoSales.swift:90-127 | one pass of the fold's closure yields exactly the sale record of the row, or nil |
| FidoSales.DecodeDelimitedRows | Sources/FidoSales.swift:85-128 | the output is the sales in input order, and the sink is its old contents followed by the refused rows |
| FidoSales.Decode | Sources/FidoSales.swift:54-83 | throws on undecodable data or a tokenizer failure; otherwise folds the whole text's rows against the url's account ID |
| FidoSales.SaleRejection | Sources/FidoSales.swift:92-102 | about `FidoSales.SaleRecord`: a row is refused if and only if the symbol has no ticker piece, quantity or proceeds do not parse, or the sale date is missing or does not resolve |
| FidoSales.SaleFields | Sources/FidoSales.swift:108-126 | a sale lists all nine keys: buysell, the sale date, the url's account or "", the ticker, and lot "" |
| FidoSales.SaleAmounts | Sources/FidoSales.swift:104-126 | a sale records the negated quantity, proceeds ÷ quantity (a listed nil for zero), and both gains as parsed |

## Left out

- Byte decoding, the SwiftCSV tokenizer (quoting, delimiters, its errors), AllocData's `parseString`/`parseDouble`, and both DateFormatters are foreign code. They are fields of `Rows.Env`, and every property holds for any choice of them.
- `UUID().uuidString` is nondeterministic. `FidoPositions.Decode` takes the ID as the `sourceMetaID` parameter.
- `timeZone: TimeZone.current` is ambient state. The zone is always passed explicitly.
- Floating point is not modelled. Amounts are `real`, so a division is exact where Swift rounds.
- Swift compares and counts `String`s by Characters (extended grapheme clusters, compared up to canonical equivalence); the model uses Unicode scalars. `accountID.count > 0` and `symbol.count > 0` test only emptiness, on which both counts agree. `starts(with:)`, `split(separator:)` and `==` agree with the model on text in which every Character is one scalar; a CRLF pair or a combining mark is one Character of two scalars, and on such text they may not.
- FidoDateFormatter.ParseFidoMMDDYYYY: counts the time of day in scalars, while `timeOfDay.count == 5` (Sources/FidoDateFormatter.swift:40) counts Characters. A time of day with a multi-scalar Character, such as `"1:00\r\n"` (5 Characters, 6 scalars), reaches the formatter in Swift but gives nil in the model.
- The regex engine is not modelled. Only the four patterns used are, as scans over LF-separated text in which `\r` is an ordinary character. ICU's `.` also stops at `\r`, U+2028 and other line terminators, and `\Z` also matches before a final CRLF, while `\n` matches U+000A only. Read literally, `(\n|\Z)` would then fail at a CRLF that is not at the very end of the text, yet Tests/FidoPositionsTests.swift:75 feeds a CRLF export and expects two holdings (lines 94-97), so the foreign decoding or ICU evidently treats CRLF otherwise; which one is not decided here. The model keeps a `\r` inside its line and cuts lines only at LF. CRLF exports are outside this model.
- The `MTransaction`/`MHolding`/`MSecurity`/`MAccount`/`MSourceMeta` coding-key strings are AllocData's. They appear as named constants.
- The `url` is modelled as its `absoluteString`. The meta record stores it as a `Link` value.
- The `name`, `id`, `description` and `sourceFormats` properties are constants. Only `id` "fido_positions" is used, as `FidoPositions.ImporterId`.
- `FINprospector` dispatch belongs to the FINporter framework and is not part of this model.
- The test files and `Tests/TestHelpers.swift` are not modelled; a few of their samples appear as example lemmas.
- `FidoPositions.Holding`'s share-basis columns are a parameter, `BasisColumns`. The columns the code reads are `CodeBasisColumns`; see Findings.

## Findings

| source | as written | input that shows it | evidently intended | confidence | as-written member | corrected member |
|---|---|---|---|---|---|---|
| Sources/FidoPositions.swift:157-166 | `holding` reads "Cost Basis Per Share" and "Cost Basis" | the holding row of Tests/FidoPositionsTests.swift:147-154, which has only "Average Cost Basis" = "n/a" and "Cost Basis Total" = "$48323.69", gets no shareBasis | read the columns the export header carries (Sources/FidoPositions.swift:40), "Average Cost Basis" and "Cost Basis Total", so that row gets 48323.69 ÷ 3333.821 | medium; not executed | FidoPositions.NaBasisAsWritten | FidoPositions.NaBasisFromHeaderColumns |

`FidoPositions.NoPerShareColumnNoBasis` states the same for every row
that has no "Cost Basis Per Share" cell, which includes every row laid out
like the export header.

The decoders take the share-basis columns as a `BasisColumns` parameter.
With `CodeBasisColumns` they behave as the source is written. With
`HeaderBasisColumns` they read the columns the export header carries
(Sources/FidoPositions.swift:40); `NaBasisFromHeaderColumns` shows this for
the sample row of Tests/FidoPositionsTests.swift:147-154. Every
holding lemma holds for both.
