/**
 * The record shapes shared by the three Fidelity decoders: raw CSV rows,
 * decoded rows, the canonical schemas and formats, the decoded-row keys, and
 * the foreign helpers every decoder calls.
 */
module Rows {
  import opened Wrappers
  import opened Text

  newtype byte = x: int | 0 <= x < 256

  /** One tokenized CSV line: column name to raw cell text. */
  type RawRow = map<string, string>

  /** AllocData's MTransaction.Action: a closed taxonomy of four tags. */
  datatype Action = BuySell | Transfer | Income | MiscFlow

  /** A Foundation Date, as seconds from a fixed reference. */
  datatype Instant = Instant(seconds: real)

  /** A Foundation TimeZone, known only by its identifier. */
  datatype TimeZone = TimeZone(identifier: string)

  /** A value of a decoded row; Null is a key listed with a nil value. */
  datatype Value =
    | Str(s: string)
    | Num(x: real)
    | Time(t: Instant)
    | Act(a: Action)
    | Link(url: string)
    | Null

  type DecodedRow = map<string, Value>

  /** AllocFormat; only CSV is produced by these decoders. */
  datatype Format = CSV

  /** AllocSchema; the schemas no decoder here names are OtherSchema. */
  datatype Schema =
    | AllocTransaction
    | AllocMetaSource
    | AllocAccount
    | AllocHolding
    | AllocSecurity
    | OtherSchema(name: string)

  /** FINporter.DetectResult: schema to the source formats offered for it. */
  type DetectResult = map<Schema, seq<Format>>

  /** The failures a decode call throws. */
  datatype DecodeError =
    | DecodingError                                  // the bytes are not text
    | MalformedCsv                                   // the tokenizer threw
    | NeedExplicitOutputSchema(schemas: seq<Schema>)

  /**
   * The code this model cannot see, as total functions:
   * normalizeDecode (bytes to text), the SwiftCSV tokenizer (text to named
   * rows, or None when it throws), AllocData's parseString (trims, and
   * strips the extra characters given) and parseDouble, the DateFormatter
   * configured as "MM/dd/yyyy HH:mm" in a given zone, and the module-level
   * fidoDateFormatter used for the export timestamp.
   */
  datatype Env = Env(
    normalizeDecode: seq<byte> -> Option<string>,
    tokenize: string -> Option<seq<RawRow>>,
    parseString: (string, set<char>) -> Option<string>,
    parseDouble: string -> Option<real>,
    dateFormatter: (string, TimeZone) -> Option<Instant>,
    metaDateFormatter: string -> Option<Instant>)

  // MTransaction.CodingKeys
  const TxnAction := "txnAction"
  const TxnTransactedAt := "txnTransactedAt"
  const TxnAccountID := "txnAccountID"
  const TxnSecurityID := "txnSecurityID"
  const TxnLotID := "txnLotID"
  const TxnShareCount := "txnShareCount"
  const TxnSharePrice := "txnSharePrice"
  const RealizedGainShort := "realizedGainShort"
  const RealizedGainLong := "realizedGainLong"

  // MHolding.CodingKeys
  const HoldingAccountID := "holdingAccountID"
  const HoldingSecurityID := "holdingSecurityID"
  const HoldingShareCount := "shareCount"
  const HoldingShareBasis := "shareBasis"

  // MSecurity.CodingKeys
  const SecuritySecurityID := "securityID"
  const SecuritySharePrice := "sharePrice"
  const SecurityUpdatedAt := "updatedAt"

  // MAccount.CodingKeys
  const AccountAccountID := "accountID"
  const AccountTitle := "title"

  // MSourceMeta.CodingKeys
  const MetaSourceMetaID := "sourceMetaID"
  const MetaUrl := "url"
  const MetaImporterID := "importerID"
  const MetaExportedAt := "exportedAt"

  /** `row[column]` on a Swift dictionary. */
  function Cell(row: RawRow, column: string): Option<string> {
    if column in row then Some(row[column]) else None
  }

  /** parseString with no characters to strip beyond whitespace. */
  const NoTrim: set<char> := {}

  /** `parseString(cell, trimCharacters:)`; a missing cell parses to nil. */
  function ParseString(env: Env, cell: Option<string>, trim: set<char>): Option<string> {
    match cell
    case None => None
    case Some(s) => env.parseString(s, trim)
  }

  /** `parseDouble(cell)`; a missing cell parses to nil. */
  function ParseDouble(env: Env, cell: Option<string>): Option<real> {
    match cell
    case None => None
    case Some(s) => env.parseDouble(s)
  }

  predicate Distinct<T(==)>(s: seq<T>) {
    forall i, j | 0 <= i < j < |s| :: s[i] != s[j]
  }

  /**
   * `outputSchemas.reduce(into: [:]) { map[schema, default: []].append(.CSV) }`:
   * every schema listed is offered as CSV, once per listing.
   */
  function Capabilities(schemas: seq<Schema>): (m: DetectResult)
    ensures m.Keys == set s | s in schemas
    ensures Distinct(schemas) ==> forall s | s in m :: m[s] == [CSV]
    decreases |schemas|
  {
    if schemas == [] then map[]
    else
      var init := schemas[..|schemas| - 1];
      var last := schemas[|schemas| - 1];
      var m := Capabilities(init);
      assert schemas == init + [last];
      m[last := (if last in m then m[last] else []) + [CSV]]
  }

  /**
   * The `detect(dataPrefix:)` all three decoders share: every listed schema
   * as CSV when the decoded prefix contains the header, and nothing when the
   * bytes do not decode or the header is absent.
   */
  function DetectHeader(env: Env, dataPrefix: seq<byte>, header: string, schemas: seq<Schema>): (m: DetectResult)
    ensures var str := env.normalizeDecode(dataPrefix);
      m.Keys == if str.Some? && Contains(str.value, header) then set s | s in schemas else {}
    ensures Distinct(schemas) ==> forall s | s in m :: m[s] == [CSV]
  {
    match env.normalizeDecode(dataPrefix)
    case None => map[]
    case Some(str) => if Contains(str, header) then Capabilities(schemas) else map[]
  }
}
