/**
 * FidoHistory: account-history exports ("Accounts_History.csv"). A text is
 * recognised by its "Brokerage" banner and column header; the CSV block is
 * cut out of the surrounding text, tokenized, and each row becomes an
 * openalloc/history transaction or is rejected.
 */
module FidoHistory {
  import opened Wrappers
  import opened Rows
  import opened Text
  import opened RowStream
  import opened Block
  import opened FidoDateFormatter

  const OutputSchemas: seq<Schema> := [AllocTransaction]

  /** The start of the column header that opens the CSV block. */
  const CsvPrefix := "Run Date,Account,Action,Symbol,Security Description,Security Type,Quantity,"

  /** The columns of the header after the block prefix. */
  const HeaderRest := "Price ($)," + "Commission ($),Fees ($)," + "Accrued Interest ($),Amount ($),Settlement Date"

  /** The whole column header line. */
  const HeaderLine := CsvPrefix + HeaderRest

  /** The text detection looks for: the banner, a blank line, the header. */
  const HeaderText := "Brokerage" + "\n\n" + HeaderLine

  /** `detect(dataPrefix:)`. */
  function Detect(env: Env, dataPrefix: seq<byte>): (m: DetectResult)
    ensures m.Keys <= {AllocTransaction}
    ensures m != map[] <==>
      env.normalizeDecode(dataPrefix).Some? && Contains(env.normalizeDecode(dataPrefix).value, HeaderText)
    ensures AllocTransaction in m ==> m[AllocTransaction] == [CSV]
  {
    var m := DetectHeader(env, dataPrefix, HeaderText, OutputSchemas);
    assert OutputSchemas[0] == AllocTransaction;
    m
  }

  /**
   * What detection recognises, extraction finds: the header text holds the
   * block prefix followed by more of its line.
   */
  lemma DetectedTextHasBlock(str: string)
    requires Contains(str, HeaderText)
    ensures ExtractBlock(str, CsvPrefix).Some?
  {
    ContainsSuffix(str, "Brokerage" + "\n\n", HeaderLine);
    assert HeaderRest[0] == 'P';
    HeaderPartsGiveBlock(str, CsvPrefix, HeaderRest);
  }

  /**
   * The action table, in the order the switch tests it; each prefix keeps
   * its trailing space.
   */
  const ActionPrefixes: seq<(string, Action)> := [
    ("YOU BOUGHT ", BuySell),
    ("PURCHASE INTO ", BuySell),
    ("YOU SOLD ", BuySell),
    ("REDEMPTION FROM ", BuySell),
    ("REINVESTMENT ", BuySell),
    ("TRANSFER OF ASSETS ", Transfer),
    ("DIVIDEND RECEIVED ", Income),
    ("LONG-TERM CAP GAIN ", Income),
    ("SHORT-TERM CAP GAIN ", Income),
    ("INTEREST EARNED ", Income)
  ]

  /** The action of the first table entry whose prefix `s` starts with. */
  function FirstMatch(table: seq<(string, Action)>, s: string): Action
    decreases |table|
  {
    if table == [] then MiscFlow
    else if StartsWith(s, table[0].0) then table[0].1
    else FirstMatch(table[1..], s)
  }

  /** A result other than the default comes from an entry that matched. */
  lemma {:induction false} FirstMatchFound(table: seq<(string, Action)>, s: string)
    ensures FirstMatch(table, s) != MiscFlow ==> exists i :: 0 <= i < |table| && StartsWith(s, table[i].0)
    decreases |table|
  {
    if table != [] && !StartsWith(s, table[0].0) {
      FirstMatchFound(table[1..], s);
      if FirstMatch(table[1..], s) != MiscFlow {
        var i :| 0 <= i < |table[1..]| && StartsWith(s, table[1..][i].0);
        assert table[i + 1] == table[1..][i];
      }
    }
  }

  /** The `netAction` closure of `decodeRow`. */
  function Classify(rawAction: string): Action {
    if StartsWith(rawAction, "YOU BOUGHT ") then BuySell
    else if StartsWith(rawAction, "PURCHASE INTO ") then BuySell
    else if StartsWith(rawAction, "YOU SOLD ") then BuySell
    else if StartsWith(rawAction, "REDEMPTION FROM ") then BuySell
    else if StartsWith(rawAction, "REINVESTMENT ") then BuySell
    else if StartsWith(rawAction, "TRANSFER OF ASSETS ") then Transfer
    else if StartsWith(rawAction, "DIVIDEND RECEIVED ") then Income
    else if StartsWith(rawAction, "LONG-TERM CAP GAIN ") then Income
    else if StartsWith(rawAction, "SHORT-TERM CAP GAIN ") then Income
    else if StartsWith(rawAction, "INTEREST EARNED ") then Income
    else MiscFlow
  }

  /** The switch is first-match over the table, with miscflow as default. */
  lemma ClassifyIsFirstMatch(rawAction: string)
    ensures Classify(rawAction) == FirstMatch(ActionPrefixes, rawAction)
  {
    var t := ActionPrefixes;
    assert t[1..][1..][1..][1..][1..][1..][1..][1..][1..][1..] == [];
  }

  /** A string matches no entry exactly when it classifies as miscflow. */
  lemma MiscFlowIffNoMatch(rawAction: string)
    ensures Classify(rawAction) == MiscFlow <==>
      forall i | 0 <= i < |ActionPrefixes| :: !StartsWith(rawAction, ActionPrefixes[i].0)
  {
    ClassifyIsFirstMatch(rawAction);
    FirstMatchFound(ActionPrefixes, rawAction);
  }

  /** `s` begins with the first two characters of every prefix it starts with. */
  lemma StartsWithHead(s: string, p: string)
    requires StartsWith(s, p) && |p| >= 2
    ensures s[0] == p[0] && s[1] == p[1]
  {
    assert s[0] == s[..|p|][0] && s[1] == s[..|p|][1];
  }

  /**
   * Entries with different actions have prefixes that cannot both begin
   * one string, so matching any entry decides the action.
   */
  lemma ClassifyByAnyMatch(rawAction: string, i: nat)
    requires i < |ActionPrefixes| && StartsWith(rawAction, ActionPrefixes[i].0)
    ensures Classify(rawAction) == ActionPrefixes[i].1
  {
    StartsWithHead(rawAction, ActionPrefixes[i].0);
    MiscFlowIffNoMatch(rawAction);
    if i >= 5 {
      forall j | 0 <= j < i ensures !StartsWith(rawAction, ActionPrefixes[j].0) {
        if StartsWith(rawAction, ActionPrefixes[j].0) {
          StartsWithHead(rawAction, ActionPrefixes[j].0);
        }
      }
    }
  }

  /** A string that differs from `p` at `k` does not start with `p`. */
  lemma MismatchAt(s: string, p: string, k: nat)
    requires k < |p| && (k >= |s| || s[k] != p[k])
    ensures !StartsWith(s, p)
  {
  }

  /** A transfer out of the account is not "TRANSFER OF ASSETS " and so is miscflow. */
  lemma TransferredIsMiscFlow()
    ensures Classify("TRANSFERRED FROM " + "VS Z00-123456-1 (Cash)") == MiscFlow
  {
    var s := "TRANSFERRED FROM " + "VS Z00-123456-1 (Cash)";
    assert s[0] == 'T' && s[8] == 'R';
    MismatchAt(s, "YOU BOUGHT ", 0);
    MismatchAt(s, "PURCHASE INTO ", 0);
    MismatchAt(s, "YOU SOLD ", 0);
    MismatchAt(s, "REDEMPTION FROM ", 0);
    MismatchAt(s, "REINVESTMENT ", 0);
    MismatchAt(s, "TRANSFER OF ASSETS ", 8);
    MismatchAt(s, "DIVIDEND RECEIVED ", 0);
    MismatchAt(s, "LONG-TERM CAP GAIN ", 0);
    MismatchAt(s, "SHORT-TERM CAP GAIN ", 0);
    MismatchAt(s, "INTEREST EARNED ", 0);
  }

  /** A card purchase matches no prefix and so is miscflow. */
  lemma DebitCardIsMiscFlow()
    ensures Classify("DEBIT CARD PURCHASE") == MiscFlow
  {
    var d := "DEBIT CARD PURCHASE";
    assert d[0] == 'D' && d[1] == 'E';
    MismatchAt(d, "YOU BOUGHT ", 0);
    MismatchAt(d, "PURCHASE INTO ", 0);
    MismatchAt(d, "YOU SOLD ", 0);
    MismatchAt(d, "REDEMPTION FROM ", 0);
    MismatchAt(d, "REINVESTMENT ", 0);
    MismatchAt(d, "TRANSFER OF ASSETS ", 0);
    MismatchAt(d, "DIVIDEND RECEIVED ", 1);
    MismatchAt(d, "LONG-TERM CAP GAIN ", 0);
    MismatchAt(d, "SHORT-TERM CAP GAIN ", 0);
    MismatchAt(d, "INTEREST EARNED ", 0);
  }

  /**
   * The account ID: the last space-separated piece of the account cell,
   * which must be non-empty.
   */
  function AccountToken(accountNameNumber: string): (r: Option<string>)
    ensures r.None? <==> AllChar(accountNameNumber, ' ')
    ensures r.Some? ==> |r.value| > 0 && ' ' !in r.value
    ensures r.Some? ==> exists a: nat, b: nat ::
      LastRunFrom(accountNameNumber, ' ', 0, a, b) && r.value == accountNameNumber[a..b]
  {
    LastPieceShape(accountNameNumber, ' ');
    var accountID :- LastPiece(accountNameNumber, ' ');
    if |accountID| > 0 then Some(accountID) else None
  }

  /** After a final space, a space-free token is the account ID. */
  lemma AccountTokenAfterSpace(pre: string, token: string)
    requires |token| > 0 && ' ' !in token
    ensures AccountToken(pre + " " + token) == Some(token)
  {
    var s := pre + " " + token;
    var a, b := |pre| + 1, |s|;
    assert s[a - 1] == ' ';
    forall m | a <= m < b ensures s[m] != ' ' {
      assert s[m] == token[m - a];
    }
    assert s[a..b] == token;
    assert LastRunFrom(s, ' ', 0, a, b);
    assert s[a] != ' ';
    var r := AccountToken(s);
    var a': nat, b': nat :| LastRunFrom(s, ' ', 0, a', b') && r.value == s[a'..b'];
    LastRunUnique(s, ' ', 0, a', b', a, b);
  }

  /** The account token of the export's own example account name. */
  lemma AccountTokenExample()
    ensures AccountToken("MY TACTICAL (taxable)" + " " + "X00000000") == Some("X00000000")
  {
    AccountTokenAfterSpace("MY TACTICAL (taxable)", "X00000000");
  }

  /**
   * The guard of the row fold: the parsed action, the resolved run date and
   * the account ID, or nil when any of them is missing.
   */
  function RequiredFields(env: Env, defTimeOfDay: Option<string>, timeZone: TimeZone, row: RawRow)
    : Option<(Instant, string, string)>
  {
    var rawAction :- ParseString(env, Cell(row, "Action"), NoTrim);
    var rawDate :- Cell(row, "Run Date");
    var transactedAt :- ParseFidoMMDDYYYY(env, Some(rawDate), defTimeOfDay, timeZone);
    var accountNameNumber :- ParseString(env, Cell(row, "Account"), NoTrim);
    var accountID :- AccountToken(accountNameNumber);
    Some((transactedAt, rawAction, accountID))
  }

  /** The optional cells `decodeRow` reads. */
  function AmountCell(env: Env, row: RawRow): Option<real> { ParseDouble(env, Cell(row, "Amount ($)")) }
  function SymbolCell(env: Env, row: RawRow): Option<string> { ParseString(env, Cell(row, "Symbol"), NoTrim) }
  function QuantityCell(env: Env, row: RawRow): Option<real> { ParseDouble(env, Cell(row, "Quantity")) }
  function PriceCell(env: Env, row: RawRow): Option<real> { ParseDouble(env, Cell(row, "Price ($)")) }

  /** The transaction `decodeRow` builds, or nil when the action's fields are missing. */
  function TransactionRecord(env: Env, row: RawRow, transactedAt: Instant, rawAction: string, accountID: string)
    : Option<DecodedRow>
  {
    var action := Classify(rawAction);
    var base := map[TxnAction := Act(action), TxnTransactedAt := Time(transactedAt), TxnAccountID := Str(accountID)];
    var amount, symbol, count, price := AmountCell(env, row), SymbolCell(env, row), QuantityCell(env, row), PriceCell(env, row);
    match action
    case BuySell =>
      if symbol.None? || count.None? || price.None? then None
      else Some(base[TxnSecurityID := Str(symbol.value)][TxnShareCount := Num(count.value)][TxnSharePrice := Num(price.value)])
    case Transfer =>
      if symbol.Some? then
        if count.None? then None
        else
          var m := base[TxnShareCount := Num(count.value)][TxnSecurityID := Str(symbol.value)];
          Some(if price.Some? then m[TxnSharePrice := Num(price.value)] else m)
      else if amount.None? then None
      else Some(base[TxnShareCount := Num(amount.value)][TxnSharePrice := Num(1.0)])
    case _ =>
      if amount.None? then None
      else
        var m := base[TxnShareCount := Num(amount.value)][TxnSharePrice := Num(1.0)];
        Some(if symbol.Some? then m[TxnSecurityID := Str(symbol.value)] else m)
  }

  /** `decodeRow`, building the record by successive assignments. */
  method DecodeRow(env: Env, row: RawRow, transactedAt: Instant, rawAction: string, accountID: string)
    returns (r: Option<DecodedRow>)
    ensures r == TransactionRecord(env, row, transactedAt, rawAction, accountID)
  {
    var netAction := Classify(rawAction);
    var decodedRow: DecodedRow := map[TxnAction := Act(netAction), TxnTransactedAt := Time(transactedAt), TxnAccountID := Str(accountID)];
    var rawAmount := AmountCell(env, row);
    var rawSymbol := SymbolCell(env, row);
    var rawShareCount := QuantityCell(env, row);
    var rawSharePrice := PriceCell(env, row);
    match netAction {
      case BuySell =>
        if rawSymbol.None? || rawShareCount.None? || rawSharePrice.None? {
          return None;
        }
        decodedRow := decodedRow[TxnSecurityID := Str(rawSymbol.value)];
        decodedRow := decodedRow[TxnShareCount := Num(rawShareCount.value)];
        decodedRow := decodedRow[TxnSharePrice := Num(rawSharePrice.value)];
      case Transfer =>
        if rawSymbol.Some? {
          if rawShareCount.None? {
            return None;
          }
          decodedRow := decodedRow[TxnShareCount := Num(rawShareCount.value)];
          decodedRow := decodedRow[TxnSecurityID := Str(rawSymbol.value)];
          if rawSharePrice.Some? {
            decodedRow := decodedRow[TxnSharePrice := Num(rawSharePrice.value)];
          }
        } else {
          if rawAmount.None? {
            return None;
          }
          decodedRow := decodedRow[TxnShareCount := Num(rawAmount.value)];
          decodedRow := decodedRow[TxnSharePrice := Num(1.0)];
        }
      case Income =>
        if rawAmount.None? {
          return None;
        }
        decodedRow := decodedRow[TxnShareCount := Num(rawAmount.value)];
        decodedRow := decodedRow[TxnSharePrice := Num(1.0)];
        if rawSymbol.Some? {
          decodedRow := decodedRow[TxnSecurityID := Str(rawSymbol.value)];
        }
      case MiscFlow =>
        if rawAmount.None? {
          return None;
        }
        decodedRow := decodedRow[TxnShareCount := Num(rawAmount.value)];
        decodedRow := decodedRow[TxnSharePrice := Num(1.0)];
        if rawSymbol.Some? {
          decodedRow := decodedRow[TxnSecurityID := Str(rawSymbol.value)];
        }
    }
    return Some(decodedRow);
  }

  /** One row of the fold: the guard, then `decodeRow`. */
  function HistoryDecode(env: Env, defTimeOfDay: Option<string>, timeZone: TimeZone, row: RawRow): Option<DecodedRow> {
    var (transactedAt, rawAction, accountID) :- RequiredFields(env, defTimeOfDay, timeZone, row);
    TransactionRecord(env, row, transactedAt, rawAction, accountID)
  }

  /** The per-row decoder the fold applies. */
  function HistoryRow(env: Env, defTimeOfDay: Option<string>, timeZone: TimeZone): RawRow -> Option<DecodedRow> {
    row => HistoryDecode(env, defTimeOfDay, timeZone, row)
  }

  /**
   * `decodeDelimitedRows`: the decoded rows in input order, and the sink
   * extended by the rows that did not decode, earlier contents kept.
   */
  method DecodeDelimitedRows(env: Env, delimitedRows: seq<RawRow>, defTimeOfDay: Option<string>, timeZone: TimeZone,
                             rejectedIn: seq<RawRow>)
    returns (decodedRows: seq<DecodedRow>, rejectedRows: seq<RawRow>)
    ensures decodedRows == Decoded(HistoryRow(env, defTimeOfDay, timeZone), delimitedRows)
    ensures rejectedRows == rejectedIn + Rejected(HistoryRow(env, defTimeOfDay, timeZone), delimitedRows)
  {
    ghost var f := HistoryRow(env, defTimeOfDay, timeZone);
    decodedRows, rejectedRows := [], rejectedIn;
    var i := 0;
    while i < |delimitedRows|
      invariant 0 <= i <= |delimitedRows|
      invariant decodedRows == Decoded(f, delimitedRows[..i])
      invariant rejectedRows == rejectedIn + Rejected(f, delimitedRows[..i])
    {
      var delimitedRow := delimitedRows[i];
      assert delimitedRows[..i + 1][..i] == delimitedRows[..i];
      var fields := RequiredFields(env, defTimeOfDay, timeZone, delimitedRow);
      var decodedRow: Option<DecodedRow> := None;
      if fields.Some? {
        var (transactedAt, rawAction, accountID) := fields.value;
        decodedRow := DecodeRow(env, delimitedRow, transactedAt, rawAction, accountID);
      }
      assert decodedRow == f(delimitedRow);
      if decodedRow.None? {
        rejectedRows := rejectedRows + [delimitedRow];
      } else {
        decodedRows := decodedRows + [decodedRow.value];
      }
      i := i + 1;
    }
    assert delimitedRows[..i] == delimitedRows;
  }

  /**
   * `decode`: text that is not text throws; without a block there are no
   * rows; a block the tokenizer refuses throws; otherwise the block's rows
   * go through the fold.
   */
  method Decode(env: Env, data: seq<byte>, defTimeOfDay: Option<string>, timeZone: TimeZone, rejectedIn: seq<RawRow>)
    returns (r: Result<seq<DecodedRow>, DecodeError>, rejectedRows: seq<RawRow>)
    ensures env.normalizeDecode(data).None? ==> r == Failure(DecodingError) && rejectedRows == rejectedIn
    ensures env.normalizeDecode(data).Some? && !Contains(env.normalizeDecode(data).value, CsvPrefix) ==>
      r == Success([]) && rejectedRows == rejectedIn
    ensures env.normalizeDecode(data).Some? ==>
      var block := ExtractBlock(env.normalizeDecode(data).value, CsvPrefix);
      && (block.None? ==> r == Success([]) && rejectedRows == rejectedIn)
      && (block.Some? && env.tokenize(block.value).None? ==> r == Failure(MalformedCsv) && rejectedRows == rejectedIn)
      && (block.Some? && env.tokenize(block.value).Some? ==>
            var rows := env.tokenize(block.value).value;
            && r == Success(Decoded(HistoryRow(env, defTimeOfDay, timeZone), rows))
            && rejectedRows == rejectedIn + Rejected(HistoryRow(env, defTimeOfDay, timeZone), rows))
  {
    var str := env.normalizeDecode(data);
    if str.None? {
      return Failure(DecodingError), rejectedIn;
    }
    if !Contains(str.value, CsvPrefix) {
      NoPrefixNoBlock(str.value, CsvPrefix);
    }
    var items: seq<DecodedRow> := [];
    rejectedRows := rejectedIn;
    var csvStr := ExtractBlock(str.value, CsvPrefix);
    if csvStr.Some? {
      var table := env.tokenize(csvStr.value);
      if table.None? {
        return Failure(MalformedCsv), rejectedIn;
      }
      var nuItems;
      nuItems, rejectedRows := DecodeDelimitedRows(env, table.value, defTimeOfDay, timeZone, rejectedRows);
      assert items + nuItems == nuItems;
      items := items + nuItems;
    }
    return Success(items), rejectedRows;
  }

  /**
   * The guard fails exactly when the action, run date or account is
   * missing, the date does not resolve, or the account has no non-empty
   * token; a row that fails it is rejected.
   */
  lemma RejectedWithoutRequired(env: Env, defTimeOfDay: Option<string>, timeZone: TimeZone, row: RawRow)
    ensures RequiredFields(env, defTimeOfDay, timeZone, row).None? <==>
             || ParseString(env, Cell(row, "Action"), NoTrim).None?
             || "Run Date" !in row
             || ParseFidoMMDDYYYY(env, Some(row["Run Date"]), defTimeOfDay, timeZone).None?
             || ParseString(env, Cell(row, "Account"), NoTrim).None?
             || AllChar(ParseString(env, Cell(row, "Account"), NoTrim).value, ' ')
    ensures RequiredFields(env, defTimeOfDay, timeZone, row).None? ==> HistoryDecode(env, defTimeOfDay, timeZone, row).None?
  {
  }

  /**
   * Whatever the action, a transaction carries its action, date and account,
   * a share count, and only transaction keys.
   */
  lemma TransactionRecordKeys(env: Env, row: RawRow, transactedAt: Instant, rawAction: string, accountID: string)
    ensures var r := TransactionRecord(env, row, transactedAt, rawAction, accountID);
      r.Some? ==>
        && r.value[TxnAction] == Act(Classify(rawAction))
        && r.value[TxnTransactedAt] == Time(transactedAt)
        && r.value[TxnAccountID] == Str(accountID)
        && TxnShareCount in r.value
        && r.value.Keys <= {TxnAction, TxnTransactedAt, TxnAccountID, TxnSecurityID, TxnShareCount, TxnSharePrice}
  {
  }

  /**
   * Every decoded row carries the classified action, the resolved run date
   * and the account token, and only transaction keys.
   */
  lemma DecodedRowFields(env: Env, defTimeOfDay: Option<string>, timeZone: TimeZone, row: RawRow)
    requires HistoryDecode(env, defTimeOfDay, timeZone, row).Some?
    ensures var d := HistoryDecode(env, defTimeOfDay, timeZone, row).value;
      && "Action" in row && "Run Date" in row && "Account" in row
      && ParseString(env, Cell(row, "Action"), NoTrim).Some?
      && d[TxnAction] == Act(Classify(ParseString(env, Cell(row, "Action"), NoTrim).value))
      && ParseFidoMMDDYYYY(env, Some(row["Run Date"]), defTimeOfDay, timeZone).Some?
      && d[TxnTransactedAt] == Time(ParseFidoMMDDYYYY(env, Some(row["Run Date"]), defTimeOfDay, timeZone).value)
      && ParseString(env, Cell(row, "Account"), NoTrim).Some?
      && AccountToken(ParseString(env, Cell(row, "Account"), NoTrim).value).Some?
      && d[TxnAccountID] == Str(AccountToken(ParseString(env, Cell(row, "Account"), NoTrim).value).value)
      && TxnShareCount in d
      && d.Keys <= {TxnAction, TxnTransactedAt, TxnAccountID, TxnSecurityID, TxnShareCount, TxnSharePrice}
  {
    var (transactedAt, rawAction, accountID) := RequiredFields(env, defTimeOfDay, timeZone, row).value;
    TransactionRecordKeys(env, row, transactedAt, rawAction, accountID);
  }

  /** buysell needs symbol, quantity and price, and records all three. */
  lemma BuySellRule(env: Env, row: RawRow, transactedAt: Instant, rawAction: string, accountID: string)
    requires Classify(rawAction) == BuySell
    ensures var r := TransactionRecord(env, row, transactedAt, rawAction, accountID);
      && (r.Some? <==> SymbolCell(env, row).Some? && QuantityCell(env, row).Some? && PriceCell(env, row).Some?)
      && (r.Some? ==>
            && r.value.Keys == {TxnAction, TxnTransactedAt, TxnAccountID, TxnSecurityID, TxnShareCount, TxnSharePrice}
            && r.value[TxnSecurityID] == Str(SymbolCell(env, row).value)
            && r.value[TxnShareCount] == Num(QuantityCell(env, row).value)
            && r.value[TxnSharePrice] == Num(PriceCell(env, row).value))
  {
  }

  /**
   * A security transfer needs a quantity and records the price only when
   * one parses; a cash transfer (no symbol) needs an amount and records it
   * as shares at 1.0.
   */
  lemma TransferRule(env: Env, row: RawRow, transactedAt: Instant, rawAction: string, accountID: string)
    requires Classify(rawAction) == Transfer
    ensures var r := TransactionRecord(env, row, transactedAt, rawAction, accountID);
      && (SymbolCell(env, row).Some? ==>
            && (r.Some? <==> QuantityCell(env, row).Some?)
            && (r.Some? ==>
                  && r.value[TxnSecurityID] == Str(SymbolCell(env, row).value)
                  && r.value[TxnShareCount] == Num(QuantityCell(env, row).value)
                  && (TxnSharePrice in r.value <==> PriceCell(env, row).Some?)
                  && (PriceCell(env, row).Some? ==> r.value[TxnSharePrice] == Num(PriceCell(env, row).value))))
      && (SymbolCell(env, row).None? ==>
            && (r.Some? <==> AmountCell(env, row).Some?)
            && (r.Some? ==>
                  && r.value.Keys == {TxnAction, TxnTransactedAt, TxnAccountID, TxnShareCount, TxnSharePrice}
                  && r.value[TxnShareCount] == Num(AmountCell(env, row).value)
                  && r.value[TxnSharePrice] == Num(1.0)))
  {
  }

  /**
   * income and miscflow need an amount, record it as shares at 1.0, and
   * record the symbol only when there is one.
   */
  lemma CashFlowRule(env: Env, row: RawRow, transactedAt: Instant, rawAction: string, accountID: string)
    requires Classify(rawAction) == Income || Classify(rawAction) == MiscFlow
    ensures var r := TransactionRecord(env, row, transactedAt, rawAction, accountID);
      && (r.Some? <==> AmountCell(env, row).Some?)
      && (r.Some? ==>
            && r.value[TxnShareCount] == Num(AmountCell(env, row).value)
            && r.value[TxnSharePrice] == Num(1.0)
            && (TxnSecurityID in r.value <==> SymbolCell(env, row).Some?)
            && (SymbolCell(env, row).Some? ==> r.value[TxnSecurityID] == Str(SymbolCell(env, row).value)))
  {
  }
}
