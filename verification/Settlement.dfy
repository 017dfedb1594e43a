/**
 * What one trade, one deposit and one new quote do to the database when nothing
 * runs beside them. The interleaved protocol and the service classes are both
 * measured against these functions.
 */
module Settlement {
  import opened Schema

  /** Why a call was refused; each constructor is one `throw` of the source. */
  datatype Refusal =
    | NotFound            // 404
    | AlreadyExecuted     // 409
    | Expired             // 410
    | InsufficientBalance // 422
    | OutOfRange          // bigint overflow, reported as 500
    | QuoteTaken          // trades_quote_id_unique
    | KeyTaken            // trades_client_idempotency_key_unique

  datatype Result = Committed(db: Database) | Aborted(why: Refusal)

  datatype Leg = Leg(account: Account, amountMinor: int)

  /** BUY: the client owes quote currency and receives base currency. SELL: reversed. */
  function DebitLeg(q: Quote): Leg {
    if q.side == BUY then Leg(Account(q.clientId, q.quoteCurrency), q.quoteAmountMinor)
    else Leg(Account(q.clientId, q.baseCurrency), q.baseAmountMinor)
  }

  function CreditLeg(q: Quote): Leg {
    if q.side == BUY then Leg(Account(q.clientId, q.baseCurrency), q.baseAmountMinor)
    else Leg(Account(q.clientId, q.quoteCurrency), q.quoteAmountMinor)
  }

  /** The accounts a trade touches: no duplicates, debit first. */
  function TouchedAccounts(q: Quote): seq<Account> {
    if DebitLeg(q).account == CreditLeg(q).account then [DebitLeg(q).account]
    else [DebitLeg(q).account, CreditLeg(q).account]
  }

  function Available(balances: map<Account, int>, a: Account): int {
    if a in balances then balances[a] else 0
  }

  // ---- Ledger primitives ----

  /** INSERT ... ON CONFLICT DO NOTHING of a zero row for every account of the list. */
  function EnsureRows(db: Database, accounts: seq<Account>): Database {
    db.(balances := db.balances + ZeroRows(db.balances, accounts))
  }

  function ZeroRows(balances: map<Account, int>, accounts: seq<Account>): map<Account, int> {
    map a | a in accounts && a !in balances :: 0
  }

  function Debit(db: Database, leg: Leg, ref: Ref): Option<Database> {
    if leg.account in db.balances && db.balances[leg.account] >= leg.amountMinor then
      Some(db.(balances := db.balances[leg.account := db.balances[leg.account] - leg.amountMinor],
               ledger := db.ledger + [Entry(leg.account, -leg.amountMinor, ref)]))
    else None
  }

  function Credit(db: Database, leg: Leg, ref: Ref): Option<Database> {
    var after := Available(db.balances, leg.account) + leg.amountMinor;
    if leg.amountMinor > MAX_BIGINT || after > MAX_BIGINT then None
    else Some(db.(balances := db.balances[leg.account := after],
                  ledger := db.ledger + [Entry(leg.account, leg.amountMinor, ref)]))
  }

  // ---- Trades table ----

  predicate QuoteUsed(trades: seq<Trade>, quoteId: QuoteId) {
    exists i :: 0 <= i < |trades| && trades[i].quoteId == quoteId
  }

  predicate HasKey(t: Trade, clientId: ClientId, key: string) {
    t.clientId == clientId && t.idempotencyKey == key
  }

  function FindByIdempotencyKey(trades: seq<Trade>, clientId: ClientId, key: string): (r: Option<Trade>)
    ensures r.Some? ==> r.value in trades && HasKey(r.value, clientId, key)
    ensures r.None? ==> forall t :: t in trades ==> !HasKey(t, clientId, key)
  {
    if trades == [] then None
    else if HasKey(trades[0], clientId, key) then Some(trades[0])
    else FindByIdempotencyKey(trades[1..], clientId, key)
  }

  function TradeOf(q: Quote, quoteId: QuoteId, key: string, id: CallId): Trade {
    Trade(id, q.clientId, quoteId, q.side, q.baseCurrency, q.quoteCurrency,
          q.baseAmountMinor, q.quoteAmountMinor, q.price, key)
  }

  function InsertTrade(db: Database, t: Trade): Result {
    if QuoteUsed(db.trades, t.quoteId) then Aborted(QuoteTaken)
    else if FindByIdempotencyKey(db.trades, t.clientId, t.idempotencyKey).Some? then Aborted(KeyTaken)
    else Committed(db.(trades := db.trades + [t]))
  }

  function MarkExecuted(db: Database, quoteId: QuoteId): Database
    requires quoteId in db.quotes
  {
    db.(quotes := db.quotes[quoteId := db.quotes[quoteId].(status := EXECUTED)])
  }

  // ---- Whole transactions ----

  /** Owner, status and expiry of the quote, in the order the source checks them. */
  function CheckQuote(db: Database, clientId: ClientId, quoteId: QuoteId, now: int): Option<Refusal> {
    if quoteId !in db.quotes then Some(NotFound)
    else CheckQuoteRow(db.quotes[quoteId], clientId, now)
  }

  function CheckQuoteRow(q: Quote, clientId: ClientId, now: int): Option<Refusal> {
    if q.clientId != clientId then Some(NotFound)
    else if q.status == EXECUTED then Some(AlreadyExecuted)
    else if now >= q.expiresAt then Some(Expired)
    else None
  }

  function ExecuteTrade(db: Database, clientId: ClientId, quoteId: QuoteId, key: string, now: int, id: CallId): Result {
    match CheckQuote(db, clientId, quoteId, now)
    case Some(why) => Aborted(why)
    case None =>
      var q := db.quotes[quoteId];
      match Debit(EnsureRows(db, TouchedAccounts(q)), DebitLeg(q), TradeRef(id))
      case None => Aborted(InsufficientBalance)
      case Some(debited) =>
        match Credit(debited, CreditLeg(q), TradeRef(id))
        case None => Aborted(OutOfRange)
        case Some(credited) =>
          match InsertTrade(credited, TradeOf(q, quoteId, key, id))
          case Aborted(why) => Aborted(why)
          case Committed(inserted) => Committed(MarkExecuted(inserted, quoteId))
  }

  function ExecuteDeposit(db: Database, leg: Leg, id: CallId): Result {
    match Credit(EnsureRows(db, [leg.account]), leg, DepositRef(id))
    case None => Aborted(OutOfRange)
    case Some(credited) => Committed(credited)
  }

  /** What createQuote stores: both amounts past their guards and inside the column. */
  predicate StorableQuote(q: Quote) {
    && 0 < q.baseAmountMinor <= MAX_BIGINT
    && 0 < q.quoteAmountMinor <= MAX_BIGINT
    && q.status == ACTIVE
  }

  // ---- Histories ----

  datatype Operation =
    | TradeOp(clientId: ClientId, quoteId: QuoteId, key: string, checkedAt: int, id: CallId)
    | DepositOp(leg: Leg, id: CallId)
    | QuoteOp(quoteId: QuoteId, quote: Quote)

  /** One operation run on its own; None when it would be refused. */
  function Perform(db: Database, op: Operation): Option<Database> {
    match op
    case TradeOp(clientId, quoteId, key, checkedAt, id) =>
      var r := ExecuteTrade(db, clientId, quoteId, key, checkedAt, id);
      if r.Committed? && !IdUsed(db, id) then Some(r.db) else None
    case DepositOp(leg, id) =>
      var r := ExecuteDeposit(db, leg, id);
      if leg.amountMinor > 0 && r.Committed? && !IdUsed(db, id) then Some(r.db) else None
    case QuoteOp(quoteId, quote) =>
      if quoteId !in db.quotes && StorableQuote(quote) then Some(db.(quotes := db.quotes[quoteId := quote]))
      else None
  }

  /** Generated ids are distinct: no earlier entry was written for this one. */
  predicate IdUsed(db: Database, id: CallId) {
    exists e :: e in db.ledger && (e.ref == TradeRef(id) || e.ref == DepositRef(id))
  }

  /** The operations of a history one after the other, each required to succeed. */
  function Replay(db: Database, history: seq<Operation>): Option<Database> {
    if history == [] then Some(db)
    else
      var before := Replay(db, history[..|history| - 1]);
      if before.None? then None else Perform(before.value, history[|history| - 1])
  }
}
