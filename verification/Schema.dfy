/** The tables of the service and the values stored in them. */
module Schema {
  import opened Decimals

  /** Upper bound of a signed 64-bit `bigint` column. */
  const MAX_BIGINT: int := 0x7FFF_FFFF_FFFF_FFFF

  /** A currency code, named by its rank in the order the database sorts codes by. */
  type Currency = nat
  type ClientId = nat
  type QuoteId = nat
  type CallId = nat

  datatype Option<+T> = None | Some(value: T)

  datatype TradeSide = BUY | SELL
  datatype QuoteStatus = ACTIVE | EXECUTED

  datatype Quote = Quote(
    clientId: ClientId, side: TradeSide, baseCurrency: Currency, quoteCurrency: Currency,
    baseAmountMinor: int, price: Decimal, quoteAmountMinor: int,
    status: QuoteStatus, expiresAt: int)

  datatype Trade = Trade(
    id: CallId, clientId: ClientId, quoteId: QuoteId, side: TradeSide,
    baseCurrency: Currency, quoteCurrency: Currency,
    baseAmountMinor: int, quoteAmountMinor: int, price: Decimal, idempotencyKey: string)

  /** Key of a balance row: UNIQUE(client_id, currency). */
  datatype Account = Account(clientId: ClientId, currency: Currency)

  /** What a ledger entry was written for: `ref_type` together with `ref_id`. */
  datatype Ref = SeedRef(client: ClientId) | TradeRef(trade: CallId) | DepositRef(deposit: CallId)

  datatype Entry = Entry(account: Account, deltaMinor: int, ref: Ref)

  datatype Database = Database(
    balances: map<Account, int>, ledger: seq<Entry>,
    quotes: map<QuoteId, Quote>, trades: seq<Trade>)

  const EMPTY_DATABASE := Database(map[], [], map[], [])
}
