/**
 * FidoSales: realized gain/loss exports
 * ("Realized_Gain_Loss_Account_X12345678.csv"). Every row is one sale,
 * recorded as a buysell transaction that reduces the share count; the
 * account comes from the file name, not from the rows.
 */
module FidoSales {
  import opened Wrappers
  import opened Rows
  import opened Text
  import opened RowStream
  import opened FidoDateFormatter

  const OutputSchemas: seq<Schema> := [AllocTransaction]

  /** The column header detection looks for. */
  const HeaderText :=
    "Symbol(CUSIP),Security Description," +
    "Quantity,Date Acquired,Date Sold," +
    "Proceeds,Cost Basis," +
    "Short Term Gain/Loss,Long Term Gain/Loss"

  /** `detect(dataPrefix:)`: transactions as CSV, or nothing. */
  function Detect(env: Env, dataPrefix: seq<byte>): (m: DetectResult)
    ensures m.Keys <= {AllocTransaction}
    ensures m != map[] <==>
      env.normalizeDecode(dataPrefix).Some? && Contains(env.normalizeDecode(dataPrefix).value, HeaderText)
    ensures AllocTransaction in m ==> m[AllocTransaction] == [CSV]
  {
    var m := DetectHeader(env, dataPrefix, HeaderText, OutputSchemas);
    assert OutputSchemas[0] == AllocTransaction;
    m
  }

  /** The character class `[A-Za-z0-9]`. */
  predicate IsAlnum(c: char) {
    ('A' <= c <= 'Z') || ('a' <= c <= 'z') || ('0' <= c <= '9')
  }

  /** The end of the alphanumeric run that starts at `i`. */
  function AlnumEnd(s: string, i: nat): (e: nat)
    requires i <= |s|
    ensures i <= e <= |s|
    ensures forall m | i <= m < e :: IsAlnum(s[m])
    ensures e == |s| || !IsAlnum(s[e])
    decreases |s| - i
  {
    if i == |s| || !IsAlnum(s[i]) then i else AlnumEnd(s, i + 1)
  }

  /** `[A-Za-z0-9]+(?=\.)` matches `s[i..e]`. */
  predicate IdMatch(s: string, i: nat, e: nat) {
    && i < e < |s|
    && (forall m | i <= m < e :: IsAlnum(s[m]))
    && s[e] == '.'
  }

  /** The leftmost match at or after `i`, as start and end. */
  function IdScanFrom(s: string, i: nat): (r: Option<(nat, nat)>)
    requires i <= |s|
    ensures r.Some? ==> i <= r.value.0 && IdMatch(s, r.value.0, r.value.1)
    ensures forall j: nat, e: nat | i <= j && (r.None? || j < r.value.0) :: !IdMatch(s, j, e)
    decreases |s| - i
  {
    if i == |s| then None
    else
      var e := AlnumEnd(s, i);
      if i < e < |s| && s[e] == '.' then Some((i, e)) else IdScanFrom(s, i + 1)
  }

  /** The account-ID closure of `decode`: the match in the url's text. */
  function AccountIDFromURL(url: Option<string>): Option<string> {
    var urlStr :- url;
    match IdScanFrom(urlStr, 0)
    case None => None
    case Some((i, e)) => Some(urlStr[i..e])
  }

  /**
   * The account ID is a non-empty alphanumeric run followed by a period,
   * starting at the leftmost place any such run does, and so not preceded by
   * another alphanumeric character. There is none exactly when there is no
   * url or no such run.
   */
  lemma AccountIDShape(url: Option<string>)
    ensures AccountIDFromURL(url).None? <==>
      url.None? || forall i: nat, e: nat :: !IdMatch(url.value, i, e)
    ensures AccountIDFromURL(url).Some? ==>
      var s := url.value;
      exists i: nat, e: nat ::
        && IdMatch(s, i, e)
        && AccountIDFromURL(url).value == s[i..e]
        && (i == 0 || !IsAlnum(s[i - 1]))
        && (forall j: nat, e': nat | j < i :: !IdMatch(s, j, e'))
  {
    if url.Some? {
      var s := url.value;
      match IdScanFrom(s, 0)
      case None =>
      case Some((i, e)) =>
        if i > 0 && IsAlnum(s[i - 1]) {
          assert IdMatch(s, i - 1, e);
        }
    }
  }

  /**
   * In a url of the shape `pre + id + "." + rest`, where `pre` has no period
   * and does not end alphanumerically, the account ID is `id`.
   */
  lemma AccountIDAfterSeparator(pre: string, id: string, rest: string)
    requires '.' !in pre
    requires pre == [] || !IsAlnum(pre[|pre| - 1])
    requires |id| > 0 && forall m | 0 <= m < |id| :: IsAlnum(id[m])
    ensures AccountIDFromURL(Some(pre + id + "." + rest)) == Some(id)
  {
    var s := pre + id + "." + rest;
    var i, e := |pre|, |pre| + |id|;
    assert s[i..e] == id;
    forall m | i <= m < e ensures IsAlnum(s[m]) {
      assert s[m] == id[m - i];
    }
    assert IdMatch(s, i, e);
    forall j: nat, e': nat | j < i ensures !IdMatch(s, j, e') {
      var before := s[i - 1];
    }
  }

  /** The file name of the sample export yields its account number. */
  lemma SampleAccountID()
    ensures AccountIDFromURL(Some("Realized_Gain_Loss_Account_" + "X12345678" + "." + "csv"))
         == Some("X12345678")
  {
    var pre := "Realized_Gain_Loss_Account_";
    assert pre[|pre| - 1] == '_';
    assert '.' !in pre;
    var id := "X12345678";
    assert forall m | 0 <= m < |id| :: IsAlnum(id[m]);
    AccountIDAfterSeparator(pre, id, "csv");
  }

  /** The symbol before the CUSIP: the first non-empty piece at '('. */
  function SecurityID(env: Env, row: RawRow): (r: Option<string>)
    ensures var c := ParseString(env, Cell(row, "Symbol(CUSIP)"), NoTrim);
      r == if c.None? then None else FirstPiece(c.value, '(')
    ensures r.Some? ==> |r.value| > 0 && '(' !in r.value
  {
    var symbolCusip :- ParseString(env, Cell(row, "Symbol(CUSIP)"), NoTrim);
    var symbol :- FirstPiece(symbolCusip, '(');
    if |symbol| > 0 then Some(symbol) else None
  }

  /**
   * There is no ticker exactly when the Symbol(CUSIP) cell is missing, does
   * not parse, or holds only parentheses; otherwise the ticker is the first
   * maximal run of the parsed cell without '(', preceded only by '('.
   */
  lemma SecurityIDShape(env: Env, row: RawRow)
    ensures var c := ParseString(env, Cell(row, "Symbol(CUSIP)"), NoTrim);
      SecurityID(env, row).None? <==> c.None? || AllChar(c.value, '(')
    ensures var c := ParseString(env, Cell(row, "Symbol(CUSIP)"), NoTrim);
      SecurityID(env, row).Some? ==>
        exists a: nat, b: nat :: FirstRunFrom(c.value, '(', 0, a, b) && SecurityID(env, row).value == c.value[a..b]
  {
    var c := ParseString(env, Cell(row, "Symbol(CUSIP)"), NoTrim);
    if c.Some? {
      FirstPieceShape(c.value, '(');
    }
  }

  /** "VEA(100000000)" gives the ticker "VEA". */
  lemma SecurityIDExample()
    ensures FirstPiece("VEA(100000000)", '(') == Some("VEA")
  {
    var s := "VEA(100000000)";
    FirstPieceShape(s, '(');
    assert !AllChar(s, '(') by { assert s[0] == 'V'; }
    var a: nat, b: nat :| FirstRunFrom(s, '(', 0, a, b) && FirstPiece(s, '(').value == s[a..b];
    assert FirstRunFrom(s, '(', 0, 0, 3);
    assert s[0..3] == "VEA";
    FirstRunUnique(s, '(', 0, a, b, 0, 3);
  }

  /** Leading separators are skipped: "(123)" gives "123)". */
  lemma LeadingParenthesisSkipped()
    ensures FirstPiece("(123)", '(') == Some("123)")
  {
    var s := "(123)";
    FirstPieceShape(s, '(');
    assert !AllChar(s, '(') by { assert s[1] == '1'; }
    var a: nat, b: nat :| FirstRunFrom(s, '(', 0, a, b) && FirstPiece(s, '(').value == s[a..b];
    assert FirstRunFrom(s, '(', 0, 1, 5);
    assert s[1..5] == "123)";
    FirstRunUnique(s, '(', 0, a, b, 1, 5);
  }

  /** `(shareCount != 0) ? (proceeds / shareCount) : nil`. */
  function SalePrice(shareCount: real, proceeds: real): (r: Option<real>)
    ensures r.Some? <==> shareCount != 0.0
    ensures r.Some? ==> r.value * shareCount == proceeds
  {
    if shareCount != 0.0 then Some(proceeds / shareCount) else None
  }

  /** An optional number as a listed value: nil stays listed, as Null. */
  function OptNum(x: Option<real>): (v: Value)
    ensures x.Some? <==> v.Num?
    ensures x.Some? ==> v == Num(x.value)
    ensures x.None? ==> v == Null
  {
    match x
    case Some(n) => Num(n)
    case None => Null
  }

  /** The required values of a sale: ticker, quantity, proceeds, date sold. */
  function SaleRequired(env: Env, defTimeOfDay: Option<string>, timeZone: TimeZone, row: RawRow)
    : Option<(string, real, real, Instant)>
  {
    var securityID :- SecurityID(env, row);
    var shareCount :- ParseDouble(env, Cell(row, "Quantity"));
    var proceeds :- ParseDouble(env, Cell(row, "Proceeds"));
    var dateSold :- Cell(row, "Date Sold");
    var transactedAt :- ParseFidoMMDDYYYY(env, Some(dateSold), defTimeOfDay, timeZone);
    Some((securityID, shareCount, proceeds, transactedAt))
  }

  /** The sale a row decodes to, with all nine keys listed. */
  function SaleRecord(env: Env, defTimeOfDay: Option<string>, timeZone: TimeZone, accountID: Option<string>, row: RawRow)
    : Option<DecodedRow>
  {
    var (securityID, shareCount, proceeds, transactedAt) :- SaleRequired(env, defTimeOfDay, timeZone, row);
    Some(map[
      TxnAction := Act(BuySell),
      TxnTransactedAt := Time(transactedAt),
      TxnAccountID := Str(accountID.GetOr("")),
      TxnSecurityID := Str(securityID),
      TxnLotID := Str(""),
      TxnShareCount := Num(-1.0 * shareCount),
      TxnSharePrice := OptNum(SalePrice(shareCount, proceeds)),
      RealizedGainShort := OptNum(ParseDouble(env, Cell(row, "Short Term Gain/Loss"))),
      RealizedGainLong := OptNum(ParseDouble(env, Cell(row, "Long Term Gain/Loss")))])
  }

  function SalesRow(env: Env, defTimeOfDay: Option<string>, timeZone: TimeZone, accountID: Option<string>)
    : RawRow -> Option<DecodedRow>
  {
    row => SaleRecord(env, defTimeOfDay, timeZone, accountID, row)
  }

  /** The body of the fold's closure: one row to its sale, or nil. */
  method DecodeSale(env: Env, defTimeOfDay: Option<string>, timeZone: TimeZone, accountID: Option<string>, row: RawRow)
    returns (item: Option<DecodedRow>)
    ensures item == SaleRecord(env, defTimeOfDay, timeZone, accountID, row)
  {
    var required := SaleRequired(env, defTimeOfDay, timeZone, row);
    if required.None? {
      return None;
    }
    var (securityID, shareCount, proceeds, transactedAt) := required.value;
    var sharePrice := if shareCount != 0.0 then Some(proceeds / shareCount) else None;
    var realizedShort := ParseDouble(env, Cell(row, "Short Term Gain/Loss"));
    var realizedLong := ParseDouble(env, Cell(row, "Long Term Gain/Loss"));
    var shareCount' := -1.0 * shareCount;
    var lotID := "";
    return Some(map[
      TxnAction := Act(BuySell),
      TxnTransactedAt := Time(transactedAt),
      TxnAccountID := Str(accountID.GetOr("")),
      TxnSecurityID := Str(securityID),
      TxnLotID := Str(lotID),
      TxnShareCount := Num(shareCount'),
      TxnSharePrice := OptNum(sharePrice),
      RealizedGainShort := OptNum(realizedShort),
      RealizedGainLong := OptNum(realizedLong)]);
  }

  /**
   * `decodeDelimitedRows`: the sales in input order, and the sink extended
   * by the rows that did not decode, earlier contents kept.
   */
  method DecodeDelimitedRows(env: Env, delimitedRows: seq<RawRow>, defTimeOfDay: Option<string>, timeZone: TimeZone,
                             accountID: Option<string>, rejectedIn: seq<RawRow>)
    returns (decodedRows: seq<DecodedRow>, rejectedRows: seq<RawRow>)
    ensures decodedRows == Decoded(SalesRow(env, defTimeOfDay, timeZone, accountID), delimitedRows)
    ensures rejectedRows == rejectedIn + Rejected(SalesRow(env, defTimeOfDay, timeZone, accountID), delimitedRows)
  {
    ghost var f := SalesRow(env, defTimeOfDay, timeZone, accountID);
    decodedRows, rejectedRows := [], rejectedIn;
    var i := 0;
    while i < |delimitedRows|
      invariant 0 <= i <= |delimitedRows|
      invariant decodedRows == Decoded(f, delimitedRows[..i])
      invariant rejectedRows == rejectedIn + Rejected(f, delimitedRows[..i])
    {
      var delimitedRow := delimitedRows[i];
      assert delimitedRows[..i + 1][..i] == delimitedRows[..i];
      var item := DecodeSale(env, defTimeOfDay, timeZone, accountID, delimitedRow);
      assert item == f(delimitedRow);
      if item.None? {
        rejectedRows := rejectedRows + [delimitedRow];
      } else {
        decodedRows := decodedRows + [item.value];
      }
      i := i + 1;
    }
    assert delimitedRows[..i] == delimitedRows;
  }

  /**
   * `decode`: text that is not text throws; otherwise the whole text is
   * tokenized (a tokenizer failure throws) and every row is decoded against
   * the account ID found in the url.
   */
  method Decode(env: Env, data: seq<byte>, url: Option<string>, defTimeOfDay: Option<string>, timeZone: TimeZone,
                rejectedIn: seq<RawRow>)
    returns (r: Result<seq<DecodedRow>, DecodeError>, rejectedRows: seq<RawRow>)
    ensures env.normalizeDecode(data).None? ==> r == Failure(DecodingError) && rejectedRows == rejectedIn
    ensures env.normalizeDecode(data).Some? ==>
      var rows := env.tokenize(env.normalizeDecode(data).value);
      var f := SalesRow(env, defTimeOfDay, timeZone, AccountIDFromURL(url));
      && (rows.None? ==> r == Failure(MalformedCsv) && rejectedRows == rejectedIn)
      && (rows.Some? ==> r == Success(Decoded(f, rows.value)) && rejectedRows == rejectedIn + Rejected(f, rows.value))
  {
    var str := env.normalizeDecode(data);
    if str.None? {
      return Failure(DecodingError), rejectedIn;
    }
    var accountID := AccountIDFromURL(url);
    var delimitedRows := env.tokenize(str.value);
    if delimitedRows.None? {
      return Failure(MalformedCsv), rejectedIn;
    }
    var items;
    items, rejectedRows := DecodeDelimitedRows(env, delimitedRows.value, defTimeOfDay, timeZone, accountID, rejectedIn);
    return Success(items), rejectedRows;
  }

  /**
   * A row is refused exactly when the symbol cell does not parse or has no
   * ticker piece, Quantity or Proceeds does not parse, or Date Sold is
   * missing or does not resolve.
   */
  lemma SaleRejection(env: Env, defTimeOfDay: Option<string>, timeZone: TimeZone, accountID: Option<string>, row: RawRow)
    ensures SaleRecord(env, defTimeOfDay, timeZone, accountID, row).None? <==>
      || SecurityID(env, row).None?
      || ParseDouble(env, Cell(row, "Quantity")).None?
      || ParseDouble(env, Cell(row, "Proceeds")).None?
      || ParseFidoMMDDYYYY(env, Cell(row, "Date Sold"), defTimeOfDay, timeZone).None?
  {
  }

  /**
   * A decoded sale lists all nine keys: a buysell on the sale date, for the
   * url's account or "", of the ticker, with lot "".
   */
  lemma SaleFields(env: Env, defTimeOfDay: Option<string>, timeZone: TimeZone, accountID: Option<string>, row: RawRow)
    ensures SaleRecord(env, defTimeOfDay, timeZone, accountID, row).Some? ==>
      var d := SaleRecord(env, defTimeOfDay, timeZone, accountID, row).value;
      && d.Keys == {TxnAction, TxnTransactedAt, TxnAccountID, TxnSecurityID, TxnLotID,
                    TxnShareCount, TxnSharePrice, RealizedGainShort, RealizedGainLong}
      && d[TxnAction] == Act(BuySell)
      && d[TxnTransactedAt] == Time(ParseFidoMMDDYYYY(env, Cell(row, "Date Sold"), defTimeOfDay, timeZone).value)
      && d[TxnAccountID] == Str(if accountID.Some? then accountID.value else "")
      && d[TxnSecurityID] == Str(SecurityID(env, row).value)
      && d[TxnLotID] == Str("")
  {
    var required := SaleRequired(env, defTimeOfDay, timeZone, row);
    if required.Some? {
      var (securityID, shareCount, proceeds, transactedAt) := required.value;
      assert securityID == SecurityID(env, row).value;
      assert transactedAt == ParseFidoMMDDYYYY(env, Cell(row, "Date Sold"), defTimeOfDay, timeZone).value;
    }
  }

  /**
   * A decoded sale records the negated quantity, the price proceeds over
   * quantity (a listed nil for a zero quantity), and both realized gains as
   * parsed.
   */
  lemma SaleAmounts(env: Env, defTimeOfDay: Option<string>, timeZone: TimeZone, accountID: Option<string>, row: RawRow)
    ensures SaleRecord(env, defTimeOfDay, timeZone, accountID, row).Some? ==>
      var d := SaleRecord(env, defTimeOfDay, timeZone, accountID, row).value;
      var quantity := ParseDouble(env, Cell(row, "Quantity")).value;
      var proceeds := ParseDouble(env, Cell(row, "Proceeds")).value;
      && d[TxnShareCount] == Num(-quantity)
      && (quantity == 0.0 <==> d[TxnSharePrice] == Null)
      && (quantity != 0.0 ==> d[TxnSharePrice].Num? && d[TxnSharePrice].x * quantity == proceeds)
      && d[RealizedGainShort] == OptNum(ParseDouble(env, Cell(row, "Short Term Gain/Loss")))
      && d[RealizedGainLong] == OptNum(ParseDouble(env, Cell(row, "Long Term Gain/Loss")))
  {
    var required := SaleRequired(env, defTimeOfDay, timeZone, row);
    if required.Some? {
      var (securityID, shareCount, proceeds, transactedAt) := required.value;
      var price := SalePrice(shareCount, proceeds);
    }
  }
}
