/**
 * What a trade and a deposit do, said on the rows alone: which of them is refused and
 * why, and every row a committed one leaves.
 */
module Effects {
  import opened Schema
  import opened Settlement

  // ---- What the guards look at ----

  function Balance(db: Database, clientId: ClientId, currency: Currency): int {
    if Account(clientId, currency) in db.balances then db.balances[Account(clientId, currency)] else 0
  }

  predicate Own(db: Database, clientId: ClientId, quoteId: QuoteId) {
    quoteId in db.quotes && db.quotes[quoteId].clientId == clientId
  }

  predicate Open(db: Database, clientId: ClientId, quoteId: QuoteId, now: int) {
    Own(db, clientId, quoteId) && db.quotes[quoteId].status == ACTIVE && now < db.quotes[quoteId].expiresAt
  }

  /** A BUY is paid in quote currency, a SELL in base currency. */
  predicate CanPay(db: Database, q: Quote) {
    match q.side
    case BUY => Balance(db, q.clientId, q.quoteCurrency) >= q.quoteAmountMinor
    case SELL => Balance(db, q.clientId, q.baseCurrency) >= q.baseAmountMinor
  }

  /** What is received fits its column, on top of what is left there once the trade is paid. */
  predicate CanHold(db: Database, q: Quote) {
    var same := q.baseCurrency == q.quoteCurrency;
    match q.side
    case BUY =>
      && q.baseAmountMinor <= MAX_BIGINT
      && Balance(db, q.clientId, q.baseCurrency) - (if same then q.quoteAmountMinor else 0) + q.baseAmountMinor <= MAX_BIGINT
    case SELL =>
      && q.quoteAmountMinor <= MAX_BIGINT
      && Balance(db, q.clientId, q.quoteCurrency) - (if same then q.baseAmountMinor else 0) + q.quoteAmountMinor <= MAX_BIGINT
  }

  predicate QuoteTraded(trades: seq<Trade>, quoteId: QuoteId) {
    exists t :: t in trades && t.quoteId == quoteId
  }

  predicate KeyUsed(trades: seq<Trade>, clientId: ClientId, key: string) {
    exists t :: t in trades && t.clientId == clientId && t.idempotencyKey == key
  }

  /** The facts behind each refusal; at most one of them holds. */
  predicate Grounds(why: Refusal, db: Database, clientId: ClientId, quoteId: QuoteId, key: string, now: int) {
    match why
    case NotFound => !Own(db, clientId, quoteId)
    case AlreadyExecuted => Own(db, clientId, quoteId) && db.quotes[quoteId].status == EXECUTED
    case Expired =>
      Own(db, clientId, quoteId) && db.quotes[quoteId].status == ACTIVE && now >= db.quotes[quoteId].expiresAt
    case InsufficientBalance => Open(db, clientId, quoteId, now) && !CanPay(db, db.quotes[quoteId])
    case OutOfRange =>
      Open(db, clientId, quoteId, now) && CanPay(db, db.quotes[quoteId]) && !CanHold(db, db.quotes[quoteId])
    case QuoteTaken => Fills(db, clientId, quoteId, now) && QuoteTraded(db.trades, quoteId)
    case KeyTaken =>
      Fills(db, clientId, quoteId, now) && !QuoteTraded(db.trades, quoteId) && KeyUsed(db.trades, clientId, key)
  }

  /** Open, payable and within the column: all that is left to fail is a unique index. */
  predicate Fills(db: Database, clientId: ClientId, quoteId: QuoteId, now: int) {
    Open(db, clientId, quoteId, now) && CanPay(db, db.quotes[quoteId]) && CanHold(db, db.quotes[quoteId])
  }

  // ---- Which trades are refused ----

  lemma KeyLookup(trades: seq<Trade>, clientId: ClientId, key: string)
    ensures FindByIdempotencyKey(trades, clientId, key).Some? <==> KeyUsed(trades, clientId, key)
  {
    var found := FindByIdempotencyKey(trades, clientId, key);
    assert found.None? ==> forall t :: t in trades ==> !HasKey(t, clientId, key);
  }

  lemma QuoteLookup(trades: seq<Trade>, quoteId: QuoteId)
    ensures QuoteUsed(trades, quoteId) <==> QuoteTraded(trades, quoteId)
  {
    if t :| t in trades && t.quoteId == quoteId {
      var i :| 0 <= i < |trades| && trades[i] == t;
    }
  }

  lemma DebitPasses(db: Database, q: Quote, ref: Ref)
    ensures Debit(EnsureRows(db, TouchedAccounts(q)), DebitLeg(q), ref).Some? <==> CanPay(db, q)
  {
  }

  lemma CreditPasses(db: Database, q: Quote, ref: Ref)
    requires CanPay(db, q)
    ensures Debit(EnsureRows(db, TouchedAccounts(q)), DebitLeg(q), ref).Some?
    ensures Credit(Debit(EnsureRows(db, TouchedAccounts(q)), DebitLeg(q), ref).value, CreditLeg(q), ref).Some? <==> CanHold(db, q)
  {
  }

  lemma CheckedExactlyWhen(db: Database, clientId: ClientId, quoteId: QuoteId, key: string, now: int)
    ensures CheckQuote(db, clientId, quoteId, now).None? <==> Open(db, clientId, quoteId, now)
    ensures forall why :: CheckQuote(db, clientId, quoteId, now) == Some(why) <==>
      (why == NotFound || why == AlreadyExecuted || why == Expired) && Grounds(why, db, clientId, quoteId, key, now)
  {
  }

  /** Each refusal of a trade is given exactly when its grounds hold. */
  lemma RefusedExactlyWhen(db: Database, clientId: ClientId, quoteId: QuoteId, key: string, now: int, id: CallId, why: Refusal)
    ensures ExecuteTrade(db, clientId, quoteId, key, now, id) == Aborted(why)
        <==> Grounds(why, db, clientId, quoteId, key, now)
  {
    CheckedExactlyWhen(db, clientId, quoteId, key, now);
    if Open(db, clientId, quoteId, now) {
      OpenRefusedExactlyWhen(db, clientId, quoteId, key, now, id, why);
    }
  }

  lemma OpenRefusedExactlyWhen(db: Database, clientId: ClientId, quoteId: QuoteId, key: string, now: int, id: CallId, why: Refusal)
    requires Open(db, clientId, quoteId, now)
    ensures ExecuteTrade(db, clientId, quoteId, key, now, id) == Aborted(why)
        <==> Grounds(why, db, clientId, quoteId, key, now)
  {
    var q := db.quotes[quoteId];
    DebitPasses(db, q, TradeRef(id));
    if CanPay(db, q) { CreditPasses(db, q, TradeRef(id)); }
    KeyLookup(db.trades, clientId, key);
    QuoteLookup(db.trades, quoteId);
  }

  /** A trade is committed exactly when nothing stands against it. */
  lemma CommittedExactlyWhen(db: Database, clientId: ClientId, quoteId: QuoteId, key: string, now: int, id: CallId)
    ensures ExecuteTrade(db, clientId, quoteId, key, now, id).Committed? <==>
      Fills(db, clientId, quoteId, now) && !QuoteTraded(db.trades, quoteId) && !KeyUsed(db.trades, clientId, key)
  {
    var r := ExecuteTrade(db, clientId, quoteId, key, now, id);
    if r.Aborted? {
      RefusedExactlyWhen(db, clientId, quoteId, key, now, id, r.why);
    } else {
      NothingAgainst(db, clientId, quoteId, key, now, id);
    }
  }

  lemma NothingAgainst(db: Database, clientId: ClientId, quoteId: QuoteId, key: string, now: int, id: CallId)
    requires ExecuteTrade(db, clientId, quoteId, key, now, id).Committed?
    ensures Fills(db, clientId, quoteId, now) && !QuoteTraded(db.trades, quoteId) && !KeyUsed(db.trades, clientId, key)
  {
    forall why ensures !Grounds(why, db, clientId, quoteId, key, now) {
      RefusedExactlyWhen(db, clientId, quoteId, key, now, id, why);
    }
    assert !Grounds(NotFound, db, clientId, quoteId, key, now) && !Grounds(AlreadyExecuted, db, clientId, quoteId, key, now);
    assert !Grounds(Expired, db, clientId, quoteId, key, now) && !Grounds(InsufficientBalance, db, clientId, quoteId, key, now);
    assert !Grounds(OutOfRange, db, clientId, quoteId, key, now);
    assert !Grounds(QuoteTaken, db, clientId, quoteId, key, now) && !Grounds(KeyTaken, db, clientId, quoteId, key, now);
  }

  // ---- What a committed trade leaves ----

  /** What a trade adds to one balance: base currency comes in on a BUY and goes out on a SELL, quote currency the other way. */
  function Moved(q: Quote, clientId: ClientId, currency: Currency): int {
    if q.clientId != clientId then 0
    else
      (if currency != q.baseCurrency then 0 else if q.side == BUY then q.baseAmountMinor else -q.baseAmountMinor)
      + (if currency != q.quoteCurrency then 0 else if q.side == BUY then -q.quoteAmountMinor else q.quoteAmountMinor)
  }

  /** The two ledger entries of a trade, payment first. */
  function Entries(q: Quote, id: CallId): seq<Entry> {
    var base, quote := Account(q.clientId, q.baseCurrency), Account(q.clientId, q.quoteCurrency);
    match q.side
    case BUY => [Entry(quote, -q.quoteAmountMinor, TradeRef(id)), Entry(base, q.baseAmountMinor, TradeRef(id))]
    case SELL => [Entry(base, -q.baseAmountMinor, TradeRef(id)), Entry(quote, q.quoteAmountMinor, TradeRef(id))]
  }

  /** The trade row copies the quote, field by field, under the given id and key. */
  predicate Copies(t: Trade, q: Quote, quoteId: QuoteId, key: string, id: CallId) {
    && t.id == id && t.clientId == q.clientId && t.quoteId == quoteId && t.idempotencyKey == key
    && t.side == q.side && t.baseCurrency == q.baseCurrency && t.quoteCurrency == q.quoteCurrency
    && t.baseAmountMinor == q.baseAmountMinor && t.quoteAmountMinor == q.quoteAmountMinor && t.price == q.price
  }

  /** Every table after a trade, from the tables before. */
  predicate Traded(db: Database, after: Database, quoteId: QuoteId, key: string, id: CallId)
    requires quoteId in db.quotes
  {
    var q := db.quotes[quoteId];
    && after.ledger == db.ledger + Entries(q, id)
    && |after.trades| == |db.trades| + 1 && after.trades[..|db.trades|] == db.trades
    && Copies(after.trades[|db.trades|], q, quoteId, key, id)
    && after.quotes == db.quotes[quoteId := q.(status := EXECUTED)]
  }

  lemma TradeMovesBalances(db: Database, clientId: ClientId, quoteId: QuoteId, key: string, now: int, id: CallId,
                           holder: ClientId, currency: Currency)
    requires ExecuteTrade(db, clientId, quoteId, key, now, id).Committed?
    ensures quoteId in db.quotes
    ensures Balance(ExecuteTrade(db, clientId, quoteId, key, now, id).db, holder, currency)
         == Balance(db, holder, currency) + Moved(db.quotes[quoteId], holder, currency)
  {
  }

  lemma TradeLeavesRows(db: Database, clientId: ClientId, quoteId: QuoteId, key: string, now: int, id: CallId)
    requires ExecuteTrade(db, clientId, quoteId, key, now, id).Committed?
    ensures quoteId in db.quotes
    ensures Traded(db, ExecuteTrade(db, clientId, quoteId, key, now, id).db, quoteId, key, id)
  {
    var q, after := db.quotes[quoteId], ExecuteTrade(db, clientId, quoteId, key, now, id).db;
    assert after.ledger == db.ledger + Entries(q, id);
  }

  // ---- Deposits ----

  /** A deposit is committed exactly when its amount, and the balance it makes, fit the column; and then adds just that. */
  lemma DepositExactly(db: Database, leg: Leg, id: CallId)
    ensures var a, r := leg.account, ExecuteDeposit(db, leg, id);
      var sum := Balance(db, a.clientId, a.currency) + leg.amountMinor;
      && (r.Committed? <==> leg.amountMinor <= MAX_BIGINT && sum <= MAX_BIGINT)
      && (r.Aborted? ==> r.why == OutOfRange)
      && (r.Committed? ==>
            && r.db.balances == db.balances[a := sum]
            && r.db.ledger == db.ledger + [Entry(a, leg.amountMinor, DepositRef(id))]
            && r.db.quotes == db.quotes && r.db.trades == db.trades)
  {
  }
}
