/**
 * FidoPositions: position exports ("Portfolio_Positions_Mmm-DD-YYYY.csv").
 * One export feeds four schemas: a single source-meta record for the
 * document, and per-row accounts, holdings or securities, chosen by the
 * caller's explicit output schema.
 */
module FidoPositions {
  import opened Wrappers
  import opened Rows
  import opened Text
  import opened RowStream
  import opened Block

  /** The importer's `id`, recorded in the source-meta record. */
  const ImporterId := "fido_positions"

  const OutputSchemas: seq<Schema> := [AllocMetaSource, AllocAccount, AllocHolding, AllocSecurity]

  /** The start of the column header that opens the CSV block. */
  const CsvPrefix := "Account Number,Account Name,Symbol,Description,Quantity,"

  /** The columns of the header after the block prefix. */
  const HeaderRest :=
    "Last Price," + "Last Price Change,Current Value," +
    "Today's Gain/Loss Dollar,Today's Gain/Loss Percent," +
    "Total Gain/Loss Dollar,Total Gain/Loss Percent," +
    "Percent Of Account,Cost Basis Total,Average Cost Basis,Type"

  /** The text detection looks for: the whole column header. */
  const HeaderText := CsvPrefix + HeaderRest

  /** `trimFromTicker`: a ticker may carry asterisks. */
  const TrimFromTicker: set<char> := {'*'}

  /** The pseudo-ticker of unsettled activity, never a security. */
  const PendingActivity := "Pending Activity"

  /** The two columns the share-basis rule reads. */
  datatype BasisColumns = BasisColumns(perShare: string, total: string)

  /** The column names `holding` reads. */
  const CodeBasisColumns := BasisColumns("Cost Basis Per Share", "Cost Basis")

  /** The column names the export header carries. */
  const HeaderBasisColumns := BasisColumns("Average Cost Basis", "Cost Basis Total")

  /** `detect(dataPrefix:)`: all four schemas as CSV, or nothing. */
  function Detect(env: Env, dataPrefix: seq<byte>): (m: DetectResult)
    ensures m != map[] <==>
      env.normalizeDecode(dataPrefix).Some? && Contains(env.normalizeDecode(dataPrefix).value, HeaderText)
    ensures m != map[] ==> m.Keys == {AllocMetaSource, AllocAccount, AllocHolding, AllocSecurity}
    ensures forall s | s in m :: m[s] == [CSV]
  {
    var m := DetectHeader(env, dataPrefix, HeaderText, OutputSchemas);
    assert OutputSchemas[0] == AllocMetaSource && OutputSchemas[1] == AllocAccount;
    assert OutputSchemas[2] == AllocHolding && OutputSchemas[3] == AllocSecurity;
    assert Distinct(OutputSchemas);
    var str := env.normalizeDecode(dataPrefix);
    if str.Some? && Contains(str.value, HeaderText) then
      assert AllocMetaSource in m.Keys;
      m
    else
      assert m.Keys == {};
      m
  }

  /** What detection recognises, extraction finds. */
  lemma DetectedTextHasBlock(str: string)
    requires Contains(str, HeaderText)
    ensures ExtractBlock(str, CsvPrefix).Some?
  {
    assert HeaderRest[0] == 'L';
    HeaderPartsGiveBlock(str, CsvPrefix, HeaderRest);
  }

  /** The ticker guard shared by holdings and securities. */
  function Ticker(env: Env, row: RawRow): (r: Option<string>)
    ensures r.Some? ==> |r.value| > 0 && r.value != PendingActivity
    ensures r.Some? <==>
      && ParseString(env, Cell(row, "Symbol"), TrimFromTicker).Some?
      && |ParseString(env, Cell(row, "Symbol"), TrimFromTicker).value| > 0
      && ParseString(env, Cell(row, "Symbol"), TrimFromTicker).value != PendingActivity
    ensures r.Some? ==> r == ParseString(env, Cell(row, "Symbol"), TrimFromTicker)
  {
    var securityID :- ParseString(env, Cell(row, "Symbol"), TrimFromTicker);
    if |securityID| > 0 && securityID != PendingActivity then Some(securityID) else None
  }

  /** The non-empty account number, when there is one. */
  function AccountNumber(env: Env, row: RawRow): (r: Option<string>)
    ensures r.Some? <==>
      ParseString(env, Cell(row, "Account Number"), NoTrim).Some? &&
      |ParseString(env, Cell(row, "Account Number"), NoTrim).value| > 0
    ensures r.Some? ==> r == ParseString(env, Cell(row, "Account Number"), NoTrim)
  {
    var accountID :- ParseString(env, Cell(row, "Account Number"), NoTrim);
    if |accountID| > 0 then Some(accountID) else None
  }

  /** The guard of `holding`: account, ticker, and a non-zero quantity. */
  function HoldingGuard(env: Env, row: RawRow): (r: Option<(string, string, real)>)
    ensures r.Some? ==> r.value.2 != 0.0
  {
    var accountID :- AccountNumber(env, row);
    var securityID :- Ticker(env, row);
    var shareCount :- ParseDouble(env, Cell(row, "Quantity"));
    if shareCount != 0.0 then Some((accountID, securityID, shareCount)) else None
  }

  /**
   * The share basis `holding` settles on: the parsed per-share cell, except
   * that a literal "n/a" that parses to nil or zero becomes 1.0 for a holding
   * priced at exactly 1.0, or else the total cost over the share count when
   * that cost is positive.
   */
  function ShareBasis(env: Env, row: RawRow, cols: BasisColumns, shareCount: real): Option<real>
    requires shareCount != 0.0
  {
    var parsed := ParseDouble(env, Cell(row, cols.perShare));
    if (parsed.None? || parsed == Some(0.0)) && Cell(row, cols.perShare) == Some("n/a") then
      var sharePrice := ParseDouble(env, Cell(row, "Last Price"));
      var costBasis := ParseDouble(env, Cell(row, cols.total));
      if sharePrice.Some? && sharePrice.value == 1.0 then Some(1.0)
      else if costBasis.Some? && costBasis.value > 0.0 then Some(costBasis.value / shareCount)
      else parsed
    else parsed
  }

  /** The holding `holding` returns, or nil when its guard fails. */
  function HoldingRecord(env: Env, row: RawRow, cols: BasisColumns): Option<DecodedRow> {
    var (accountID, securityID, shareCount) :- HoldingGuard(env, row);
    var m := map[HoldingAccountID := Str(accountID), HoldingSecurityID := Str(securityID), HoldingShareCount := Num(shareCount)];
    var shareBasis := ShareBasis(env, row, cols, shareCount);
    Some(if shareBasis.Some? then m[HoldingShareBasis := Num(shareBasis.value)] else m)
  }

  /**
   * `holding`: the record, and the sink extended by the row exactly when
   * the row is refused.
   */
  method Holding(env: Env, row: RawRow, cols: BasisColumns, rejectedIn: seq<RawRow>)
    returns (item: Option<DecodedRow>, rejectedRows: seq<RawRow>)
    ensures item == HoldingRecord(env, row, cols)
    ensures rejectedRows == if item.None? then rejectedIn + [row] else rejectedIn
  {
    var guard := HoldingGuard(env, row);
    if guard.None? {
      return None, rejectedIn + [row];
    }
    var (accountID, securityID, shareCount) := guard.value;
    var decodedRow: DecodedRow := map[
      HoldingAccountID := Str(accountID),
      HoldingSecurityID := Str(securityID),
      HoldingShareCount := Num(shareCount)];
    var shareBasis: Option<real> := None;
    shareBasis := ParseDouble(env, Cell(row, cols.perShare));
    if (shareBasis.None? || shareBasis == Some(0.0)) && Cell(row, cols.perShare) == Some("n/a") {
      var sharePrice := ParseDouble(env, Cell(row, "Last Price"));
      var costBasis := ParseDouble(env, Cell(row, cols.total));
      if sharePrice.Some? && sharePrice.value == 1.0 {
        shareBasis := Some(1.0);
      } else if costBasis.Some? && costBasis.value > 0.0 {
        shareBasis := Some(costBasis.value / shareCount);
      }
    }
    if shareBasis.Some? {
      decodedRow := decodedRow[HoldingShareBasis := Num(shareBasis.value)];
    }
    return Some(decodedRow), rejectedIn;
  }

  /** The security `security` returns, or nil without a ticker and price. */
  function SecurityRecord(env: Env, row: RawRow, timestamp: Option<Instant>): Option<DecodedRow> {
    var securityID :- Ticker(env, row);
    var sharePrice :- ParseDouble(env, Cell(row, "Last Price"));
    var m := map[SecuritySecurityID := Str(securityID), SecuritySharePrice := Num(sharePrice)];
    Some(if timestamp.Some? then m[SecurityUpdatedAt := Time(timestamp.value)] else m)
  }

  /** `security`. */
  method Security(env: Env, row: RawRow, timestamp: Option<Instant>, rejectedIn: seq<RawRow>)
    returns (item: Option<DecodedRow>, rejectedRows: seq<RawRow>)
    ensures item == SecurityRecord(env, row, timestamp)
    ensures rejectedRows == if item.None? then rejectedIn + [row] else rejectedIn
  {
    var securityID := Ticker(env, row);
    var sharePrice := ParseDouble(env, Cell(row, "Last Price"));
    if securityID.None? || sharePrice.None? {
      return None, rejectedIn + [row];
    }
    var decodedRow: DecodedRow := map[
      SecuritySecurityID := Str(securityID.value),
      SecuritySharePrice := Num(sharePrice.value)];
    if timestamp.Some? {
      decodedRow := decodedRow[SecurityUpdatedAt := Time(timestamp.value)];
    }
    return Some(decodedRow), rejectedIn;
  }

  /** The account `account` returns, or nil without a number and a name. */
  function AccountRecord(env: Env, row: RawRow): Option<DecodedRow> {
    var accountID :- AccountNumber(env, row);
    var title :- ParseString(env, Cell(row, "Account Name"), NoTrim);
    Some(map[AccountAccountID := Str(accountID), AccountTitle := Str(title)])
  }

  /** `account`. */
  method Account(env: Env, row: RawRow, rejectedIn: seq<RawRow>)
    returns (item: Option<DecodedRow>, rejectedRows: seq<RawRow>)
    ensures item == AccountRecord(env, row)
    ensures rejectedRows == if item.None? then rejectedIn + [row] else rejectedIn
  {
    var accountID := AccountNumber(env, row);
    var title := ParseString(env, Cell(row, "Account Name"), NoTrim);
    if accountID.None? || title.None? {
      return None, rejectedIn + [row];
    }
    return Some(map[AccountAccountID := Str(accountID.value), AccountTitle := Str(title.value)]), rejectedIn;
  }

  /** The per-row decoder the fold applies for a schema. */
  function PositionsRow(env: Env, outputSchema: Schema, cols: BasisColumns, timestamp: Option<Instant>)
    : RawRow -> Option<DecodedRow>
  {
    row =>
      match outputSchema
      case AllocAccount => AccountRecord(env, row)
      case AllocHolding => HoldingRecord(env, row, cols)
      case AllocSecurity => SecurityRecord(env, row, timestamp)
      case _ => None
  }

  /**
   * `decodeDelimitedRows`: the decoded rows in input order, and the sink
   * extended by the rows that did not decode, earlier contents kept.
   */
  method DecodeDelimitedRows(env: Env, delimitedRows: seq<RawRow>, outputSchema: Schema, cols: BasisColumns,
                             timestamp: Option<Instant>, rejectedIn: seq<RawRow>)
    returns (decodedRows: seq<DecodedRow>, rejectedRows: seq<RawRow>)
    ensures decodedRows == Decoded(PositionsRow(env, outputSchema, cols, timestamp), delimitedRows)
    ensures rejectedRows == rejectedIn + Rejected(PositionsRow(env, outputSchema, cols, timestamp), delimitedRows)
  {
    ghost var f := PositionsRow(env, outputSchema, cols, timestamp);
    decodedRows, rejectedRows := [], rejectedIn;
    var i := 0;
    while i < |delimitedRows|
      invariant 0 <= i <= |delimitedRows|
      invariant decodedRows == Decoded(f, delimitedRows[..i])
      invariant rejectedRows == rejectedIn + Rejected(f, delimitedRows[..i])
    {
      var delimitedRow := delimitedRows[i];
      assert delimitedRows[..i + 1][..i] == delimitedRows[..i];
      var item: Option<DecodedRow>;
      match outputSchema {
        case AllocAccount =>
          item, rejectedRows := Account(env, delimitedRow, rejectedRows);
        case AllocHolding =>
          item, rejectedRows := Holding(env, delimitedRow, cols, rejectedRows);
        case AllocSecurity =>
          item, rejectedRows := Security(env, delimitedRow, timestamp, rejectedRows);
        case _ =>
          item, rejectedRows := None, rejectedRows + [delimitedRow];
      }
      assert item == f(delimitedRow);
      if item.Some? {
        decodedRows := decodedRows + [item.value];
      }
      i := i + 1;
    }
    assert delimitedRows[..i] == delimitedRows;
  }

  /** Under a schema without a per-row decoder every row goes to the sink. */
  lemma OtherSchemasRejectEveryRow(env: Env, outputSchema: Schema, cols: BasisColumns, timestamp: Option<Instant>,
                                   rows: seq<RawRow>)
    requires outputSchema !in {AllocAccount, AllocHolding, AllocSecurity}
    ensures Decoded(PositionsRow(env, outputSchema, cols, timestamp), rows) == []
    ensures Rejected(PositionsRow(env, outputSchema, cols, timestamp), rows) == rows
  {
    AllRejected(PositionsRow(env, outputSchema, cols, timestamp), rows);
  }

  /**
   * The one source-meta record of a document: a fresh identifier, the
   * caller's url (listed as nil when absent), this importer's id, and the
   * export time read from the "Date downloaded" text (nil when the text is
   * absent or does not parse).
   */
  function MetaRecord(env: Env, str: string, url: Option<string>, sourceMetaID: string): (r: DecodedRow)
    ensures r.Keys == {MetaSourceMetaID, MetaUrl, MetaImporterID, MetaExportedAt}
    ensures r[MetaSourceMetaID] == Str(sourceMetaID)
    ensures r[MetaImporterID] == Str(ImporterId)
    ensures r[MetaUrl] == (if url.Some? then Link(url.value) else Null)
    ensures DateDownloaded(str).None? ==> r[MetaExportedAt] == Null
    ensures DateDownloaded(str).Some? ==>
      r[MetaExportedAt] == (match env.metaDateFormatter(DateDownloaded(str).value)
                            case Some(t) => Time(t)
                            case None => Null)
  {
    var exportedAt: Option<Instant> :=
      match DateDownloaded(str)
      case Some(dd) => env.metaDateFormatter(dd)
      case None => None;
    map[
      MetaSourceMetaID := Str(sourceMetaID),
      MetaUrl := (match url case Some(u) => Link(u) case None => Null),
      MetaImporterID := Str(ImporterId),
      MetaExportedAt := (match exportedAt case Some(t) => Time(t) case None => Null)]
  }

  /**
   * The quoted download line of an export gives its text between the marker
   * and the closing quote.
   */
  lemma SampleExportedAtText()
    ensures DateDownloaded(DateMarker + "07/30/2021 2:26 PM ET" + "\"") == Some("07/30/2021 2:26 PM ET")
  {
    var s := DateMarker + "07/30/2021 2:26 PM ET" + "\"";
    var p, q := |DateMarker|, |s| - 1;
    assert s[p - |DateMarker|..p] == DateMarker;
    assert NextIndex(s, '\n', p) == |s|;
    assert LastQuote(s, p + 1, |s|) == Some(q);
    assert DateMatchEnd(s, p) == Some(q);
    var r := DateScanFrom(s, 0);
    assert r.Some? && r.value.0 == p;
    assert s[p..q] == "07/30/2021 2:26 PM ET";
  }

  /**
   * `decode`: text that is not text throws, and so does a missing output
   * schema; source meta yields exactly one record whatever the rows; other
   * schemas decode the CSV block's rows.
   */
  method Decode(env: Env, data: seq<byte>, outputSchema: Option<Schema>, url: Option<string>, cols: BasisColumns,
                timestamp: Option<Instant>, sourceMetaID: string, rejectedIn: seq<RawRow>)
    returns (r: Result<seq<DecodedRow>, DecodeError>, rejectedRows: seq<RawRow>)
    ensures env.normalizeDecode(data).None? ==> r == Failure(DecodingError) && rejectedRows == rejectedIn
    ensures env.normalizeDecode(data).Some? && outputSchema.None? ==>
      r == Failure(NeedExplicitOutputSchema(OutputSchemas)) && rejectedRows == rejectedIn
    ensures env.normalizeDecode(data).Some? && outputSchema == Some(AllocMetaSource) ==>
      r == Success([MetaRecord(env, env.normalizeDecode(data).value, url, sourceMetaID)]) && rejectedRows == rejectedIn
    ensures env.normalizeDecode(data).Some? && outputSchema.Some? && outputSchema != Some(AllocMetaSource) ==>
      var f := PositionsRow(env, outputSchema.value, cols, timestamp);
      var block := ExtractBlock(env.normalizeDecode(data).value, CsvPrefix);
      && (block.None? ==> r == Success([]) && rejectedRows == rejectedIn)
      && (block.Some? && env.tokenize(block.value).None? ==> r == Failure(MalformedCsv) && rejectedRows == rejectedIn)
      && (block.Some? && env.tokenize(block.value).Some? ==>
            && r == Success(Decoded(f, env.tokenize(block.value).value))
            && rejectedRows == rejectedIn + Rejected(f, env.tokenize(block.value).value))
  {
    var str := env.normalizeDecode(data);
    if str.None? {
      return Failure(DecodingError), rejectedIn;
    }
    if outputSchema.None? {
      return Failure(NeedExplicitOutputSchema(OutputSchemas)), rejectedIn;
    }
    var items: seq<DecodedRow> := [];
    rejectedRows := rejectedIn;
    if outputSchema.value == AllocMetaSource {
      assert items + [MetaRecord(env, str.value, url, sourceMetaID)] == [MetaRecord(env, str.value, url, sourceMetaID)];
      items := items + [MetaRecord(env, str.value, url, sourceMetaID)];
    } else {
      var csvStr := ExtractBlock(str.value, CsvPrefix);
      if csvStr.Some? {
        var table := env.tokenize(csvStr.value);
        if table.None? {
          return Failure(MalformedCsv), rejectedIn;
        }
        var nuItems;
        nuItems, rejectedRows := DecodeDelimitedRows(env, table.value, outputSchema.value, cols, timestamp, rejectedRows);
        assert items + nuItems == nuItems;
        items := items + nuItems;
      }
    }
    return Success(items), rejectedRows;
  }

  /**
   * A holding is kept exactly when the account number is non-empty, the
   * ticker is valid and the quantity parses to a non-zero number; it then
   * carries account, ticker and count, and a share basis only when one was
   * parsed or reconstructed.
   */
  lemma HoldingRule(env: Env, row: RawRow, cols: BasisColumns)
    ensures HoldingRecord(env, row, cols).Some? <==>
      && AccountNumber(env, row).Some?
      && Ticker(env, row).Some?
      && ParseDouble(env, Cell(row, "Quantity")).Some?
      && ParseDouble(env, Cell(row, "Quantity")).value != 0.0
    ensures HoldingRecord(env, row, cols).Some? ==>
      var d := HoldingRecord(env, row, cols).value;
      var shareCount := ParseDouble(env, Cell(row, "Quantity")).value;
      && d[HoldingAccountID] == Str(AccountNumber(env, row).value)
      && d[HoldingSecurityID] == Str(Ticker(env, row).value)
      && d[HoldingShareCount] == Num(shareCount)
      && (HoldingShareBasis in d <==> ShareBasis(env, row, cols, shareCount).Some?)
      && (HoldingShareBasis in d ==> d[HoldingShareBasis] == Num(ShareBasis(env, row, cols, shareCount).value))
      && d.Keys <= {HoldingAccountID, HoldingSecurityID, HoldingShareCount, HoldingShareBasis}
  {
  }

  /**
   * The basis is the parsed per-share cell unless that cell is literally
   * "n/a" and parses to nil or zero; then a price of exactly 1.0 gives 1.0,
   * and otherwise a positive total cost gives total over count.
   */
  lemma ShareBasisRule(env: Env, row: RawRow, cols: BasisColumns, shareCount: real)
    requires shareCount != 0.0
    ensures var parsed := ParseDouble(env, Cell(row, cols.perShare));
      var basis := ShareBasis(env, row, cols, shareCount);
      && (Cell(row, cols.perShare) != Some("n/a") ==> basis == parsed)
      && (parsed.Some? && parsed.value != 0.0 ==> basis == parsed)
      && (Cell(row, cols.perShare) == Some("n/a") && (parsed.None? || parsed.value == 0.0) ==>
            var price := ParseDouble(env, Cell(row, "Last Price"));
            var cost := ParseDouble(env, Cell(row, cols.total));
            && (price == Some(1.0) ==> basis == Some(1.0))
            && (price != Some(1.0) && cost.Some? && cost.value > 0.0 ==> basis == Some(cost.value / shareCount))
            && (price != Some(1.0) && !(cost.Some? && cost.value > 0.0) ==> basis == parsed))
  {
  }

  /** A reconstructed basis times the count gives back the total cost. */
  lemma ReconstructedBasisRoundTrip(env: Env, row: RawRow, cols: BasisColumns, shareCount: real)
    requires shareCount != 0.0
    requires Cell(row, cols.perShare) == Some("n/a")
    requires ParseDouble(env, Cell(row, cols.perShare)).None? || ParseDouble(env, Cell(row, cols.perShare)) == Some(0.0)
    requires ParseDouble(env, Cell(row, "Last Price")) != Some(1.0)
    requires ParseDouble(env, Cell(row, cols.total)).Some? && ParseDouble(env, Cell(row, cols.total)).value > 0.0
    ensures ShareBasis(env, row, cols, shareCount).Some?
    ensures ShareBasis(env, row, cols, shareCount).value * shareCount == ParseDouble(env, Cell(row, cols.total)).value
  {
  }

  /**
   * A security is kept exactly when the ticker is valid and the last price
   * parses; updatedAt is present exactly when a timestamp was given.
   */
  lemma SecurityRule(env: Env, row: RawRow, timestamp: Option<Instant>)
    ensures SecurityRecord(env, row, timestamp).Some? <==>
      Ticker(env, row).Some? && ParseDouble(env, Cell(row, "Last Price")).Some?
    ensures SecurityRecord(env, row, timestamp).Some? ==>
      var d := SecurityRecord(env, row, timestamp).value;
      && d[SecuritySecurityID] == Str(Ticker(env, row).value)
      && d[SecuritySharePrice] == Num(ParseDouble(env, Cell(row, "Last Price")).value)
      && (SecurityUpdatedAt in d <==> timestamp.Some?)
      && (timestamp.Some? ==> d[SecurityUpdatedAt] == Time(timestamp.value))
      && d.Keys <= {SecuritySecurityID, SecuritySharePrice, SecurityUpdatedAt}
  {
  }

  /**
   * An account is kept exactly when the number is non-empty and the name
   * parses, and it is then exactly {accountID, title}.
   */
  lemma AccountRule(env: Env, row: RawRow)
    ensures AccountRecord(env, row).Some? <==>
      AccountNumber(env, row).Some? && ParseString(env, Cell(row, "Account Name"), NoTrim).Some?
    ensures AccountRecord(env, row).Some? ==>
      AccountRecord(env, row).value == map[
        AccountAccountID := Str(AccountNumber(env, row).value),
        AccountTitle := Str(ParseString(env, Cell(row, "Account Name"), NoTrim).value)]
  {
  }

  /** The holding row of the export's "n/a" basis example. */
  const NaBasisRow: RawRow := map[
    "Account Number" := "1",
    "Symbol" := "ABCXY",
    "Last Price" := "$16.5587",
    "Quantity" := "3333.821",
    "Average Cost Basis" := "n/a",
    "Cost Basis Total" := "$48323.69"]

  /**
   * As written, `holding` looks for a "Cost Basis Per Share" column. The
   * export header has none, so no row laid out like it gets a share basis,
   * whatever the parser does.
   */
  lemma NoPerShareColumnNoBasis(env: Env, row: RawRow)
    requires CodeBasisColumns.perShare !in row
    ensures forall shareCount: real | shareCount != 0.0 :: ShareBasis(env, row, CodeBasisColumns, shareCount) == None
    ensures HoldingRecord(env, row, CodeBasisColumns).Some? ==>
      HoldingShareBasis !in HoldingRecord(env, row, CodeBasisColumns).value
  {
  }

  /** In particular the export's "n/a" example row gets no share basis. */
  lemma NaBasisAsWritten(env: Env, shareCount: real)
    requires shareCount != 0.0
    ensures ShareBasis(env, NaBasisRow, CodeBasisColumns, shareCount) == None
    ensures HoldingRecord(env, NaBasisRow, CodeBasisColumns).Some? ==>
      HoldingShareBasis !in HoldingRecord(env, NaBasisRow, CodeBasisColumns).value
  {
    assert "Cost Basis Per Share" !in NaBasisRow;
    NoPerShareColumnNoBasis(env, NaBasisRow);
  }

  /**
   * Read from the columns the header names, the same row gets the
   * reconstructed basis, total cost over count.
   */
  lemma NaBasisFromHeaderColumns(env: Env, shareCount: real)
    requires shareCount != 0.0
    requires env.parseDouble("n/a").None?
    requires env.parseDouble("$16.5587") != Some(1.0)
    requires env.parseDouble("$48323.69") == Some(48323.69)
    ensures ShareBasis(env, NaBasisRow, HeaderBasisColumns, shareCount) == Some(48323.69 / shareCount)
  {
    assert Cell(NaBasisRow, "Average Cost Basis") == Some("n/a");
    assert Cell(NaBasisRow, "Cost Basis Total") == Some("$48323.69");
    assert Cell(NaBasisRow, "Last Price") == Some("$16.5587");
  }
}
