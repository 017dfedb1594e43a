/** executeTrade as it is written: look the key up, run the transaction, sort out what went wrong. */
module TradingService {
  import opened Schema
  import opened Settlement
  import opened LedgerInvariant
  import opened Effects
  import opened Strings
  import opened Tables
  import LedgerService
  import QuotingService
  import RedisService

  datatype TradeResult =
    | Executed(trade: Trade)
    | Replayed(trade: Trade)
    | KeyConflict
    | Refused(why: Refusal)
    | ServerError            // 500: a unique violation isUniqueViolation could not read

  datatype TxResult = Done(trade: Trade) | Failed(why: Refusal)

  function ReplayOrConflict(existing: Trade, quoteId: QuoteId): TradeResult {
    if existing.quoteId != quoteId then KeyConflict else Replayed(existing)
  }

  class Service {
    const db: Connection
    const ledger: LedgerService.Service
    const quoting: QuotingService.Service

    constructor (db: Connection, ledger: LedgerService.Service, quoting: QuotingService.Service)
      ensures this.db == db && this.ledger == ledger && this.quoting == quoting
    {
      this.db, this.ledger, this.quoting := db, ledger, quoting;
    }

    method FindByKey(trades: seq<Trade>, clientId: ClientId, key: string) returns (found: Option<Trade>)
      ensures found == FindByIdempotencyKey(trades, clientId, key)
    {
      for i := 0 to |trades|
        invariant FindByIdempotencyKey(trades, clientId, key) == FindByIdempotencyKey(trades[i..], clientId, key)
      {
        if HasKey(trades[i], clientId, key) {
          return Some(trades[i]);
        }
        assert trades[i..][1..] == trades[i + 1..];
      }
      return None;
    }

    /** Moves the money of both legs, or says why it cannot; a failure is rolled back by the caller. */
    method MoveMoney(q: Quote, tradeId: CallId) returns (failure: Option<Refusal>)
      modifies db
      ensures failure.None? ==>
        && db.quotes == old(db.quotes) && db.trades == old(db.trades)
        && var debited := Debit(EnsureRows(old(db.Db()), TouchedAccounts(q)), DebitLeg(q), TradeRef(tradeId));
          debited.Some? && Some(db.Db()) == Credit(debited.value, CreditLeg(q), TradeRef(tradeId))
      ensures failure.Some? ==>
        var debited := Debit(EnsureRows(old(db.Db()), TouchedAccounts(q)), DebitLeg(q), TradeRef(tradeId));
        || (failure == Some(InsufficientBalance) && debited.None?)
        || (failure == Some(OutOfRange) && debited.Some? && Credit(debited.value, CreditLeg(q), TradeRef(tradeId)).None?)
    {
      var debitCurrency := if q.side == BUY then q.quoteCurrency else q.baseCurrency;
      var debitAmount := if q.side == BUY then q.quoteAmountMinor else q.baseAmountMinor;
      var creditCurrency := if q.side == BUY then q.baseCurrency else q.quoteCurrency;
      var creditAmount := if q.side == BUY then q.baseAmountMinor else q.quoteAmountMinor;
      var lock := ledger.LockBalanceRows(db, q.clientId, [debitCurrency, creditCurrency]);
      BothRows(old(db.balances), q);
      assert debitCurrency in [debitCurrency, creditCurrency] && creditCurrency in [debitCurrency, creditCurrency];
      var refused := ledger.Debit(db, lock, LedgerService.Movement(q.clientId, debitCurrency, debitAmount, TradeRef(tradeId)));
      if refused.Some? {
        return Some(InsufficientBalance);
      }
      refused := ledger.Credit(db, lock, LedgerService.Movement(q.clientId, creditCurrency, creditAmount, TradeRef(tradeId)));
      if refused.Some? {
        return Some(OutOfRange);
      }
      return None;
    }

    /** The body of the transaction does what Settlement.ExecuteTrade says, error for error. */
    method ExecuteWithinTransaction(clientId: ClientId, quoteId: QuoteId, key: string, now: int, tradeId: CallId)
      returns (r: TxResult)
      modifies db
      ensures r.Failed? ==> Settlement.ExecuteTrade(old(db.Db()), clientId, quoteId, key, now, tradeId) == Aborted(r.why)
      ensures r.Done? ==> Settlement.ExecuteTrade(old(db.Db()), clientId, quoteId, key, now, tradeId) == Committed(db.Db())
      ensures r.Done? ==> quoteId in old(db.quotes) && r.trade == TradeOf(old(db.quotes[quoteId]), quoteId, key, tradeId)
    {
      if quoteId !in db.quotes || db.quotes[quoteId].clientId != clientId {
        return Failed(NotFound);
      }
      var quote := db.quotes[quoteId];
      if quote.status == EXECUTED {
        return Failed(AlreadyExecuted);
      }
      if now >= quote.expiresAt {
        return Failed(Expired);
      }
      var failure := MoveMoney(quote, tradeId);
      if failure.Some? {
        return Failed(failure.value);
      }
      ghost var credited := db.Db();
      var trade := TradeOf(quote, quoteId, key, tradeId);
      if exists i :: 0 <= i < |db.trades| && db.trades[i].quoteId == quoteId {
        return Failed(QuoteTaken);
      }
      var holder := FindByKey(db.trades, clientId, key);
      if holder.Some? {
        return Failed(KeyTaken);
      }
      db.trades := db.trades + [trade];
      db.quotes := db.quotes[quoteId := db.quotes[quoteId].(status := EXECUTED)];
      r := Done(trade);
    }

    /**
     * A key the first lookup finds is answered from the trade it made and nothing
     * moves. Otherwise the transaction decides, on the tables as they then are: refused,
     * it leaves everything as it was; executed, it leaves what Settlement.ExecuteTrade says,
     * one new trade under the trimmed key, and no cached copy of the quote. A key
     * lost to a call that committed after the lookup always ends in a conflict, or in
     * a server error when the driver's error is wrapped. `seenTrades` is the trades
     * table as the first lookup saw it.
     */
    method ExecuteTrade(clientId: ClientId, quoteId: QuoteId, rawKey: string, seenTrades: seq<Trade>,
                        now: int, tradeId: CallId, errorsWrapped: bool, reachable: bool)
      returns (r: TradeResult)
      requires quoting.db == db && seenTrades <= db.trades
      modifies db, quoting.redis
      ensures var seen := FindByIdempotencyKey(seenTrades, clientId, Trim(rawKey));
        && (seen.Some? ==> r == ReplayOrConflict(seen.value, quoteId))
        && (seen.None? ==>
          match Settlement.ExecuteTrade(old(db.Db()), clientId, quoteId, Trim(rawKey), now, tradeId)
          case Aborted(why) =>
            r == if errorsWrapped && (why == KeyTaken || why == QuoteTaken) then ServerError
                 else if why == KeyTaken then KeyConflict else Refused(why)
          case Committed(after) =>
            && db.Db() == after && quoteId in old(db.quotes)
            && r == Executed(TradeOf(old(db.quotes[quoteId]), quoteId, Trim(rawKey), tradeId))
            && quoting.redis.store == if reachable then old(quoting.redis.store) - {RedisService.QuoteCacheKey(quoteId)}
                                      else old(quoting.redis.store))
      ensures !r.Executed? ==> db.Db() == old(db.Db()) && quoting.redis.store == old(quoting.redis.store)
      ensures UniqueKeys(seenTrades) ==>
        forall t :: t in seenTrades && t.clientId == clientId && t.idempotencyKey == Trim(rawKey) ==>
          && (r == Replayed(t) <==> t.quoteId == quoteId)
          && (r == KeyConflict <==> t.quoteId != quoteId)
      ensures !KeyUsed(seenTrades, clientId, Trim(rawKey)) ==>
        Answers(r, old(db.Db()), clientId, quoteId, Trim(rawKey), now, errorsWrapped)
      ensures r.Executed? ==>
        && quoteId in old(db.quotes) && Traded(old(db.Db()), db.Db(), quoteId, Trim(rawKey), tradeId)
        && db.trades == old(db.trades) + [r.trade]
      ensures Consistent(old(db.Db())) && !IdUsed(old(db.Db()), tradeId) ==> Consistent(db.Db())
    {
      var key := Trim(rawKey);
      var existing := FindByKey(seenTrades, clientId, key);
      KeyLookup(seenTrades, clientId, key);
      if existing.Some? {
        if UniqueKeys(seenTrades) { HolderAnswers(seenTrades, existing.value, quoteId); }
        return ReplayOrConflict(existing.value, quoteId);
      }
      r := Transact(clientId, quoteId, key, now, tradeId, errorsWrapped, reachable);
    }

    /** The rest of executeTrade: the transaction, what its catch block makes of an error, and the invalidation. */
    method Transact(clientId: ClientId, quoteId: QuoteId, key: string, now: int, tradeId: CallId,
                    errorsWrapped: bool, reachable: bool)
      returns (r: TradeResult)
      requires quoting.db == db
      modifies db, quoting.redis
      ensures match Settlement.ExecuteTrade(old(db.Db()), clientId, quoteId, key, now, tradeId)
        case Aborted(why) =>
          r == if errorsWrapped && (why == KeyTaken || why == QuoteTaken) then ServerError
               else if why == KeyTaken then KeyConflict else Refused(why)
        case Committed(after) =>
          && db.Db() == after && quoteId in old(db.quotes)
          && r == Executed(TradeOf(old(db.quotes[quoteId]), quoteId, key, tradeId))
          && quoting.redis.store == if reachable then old(quoting.redis.store) - {RedisService.QuoteCacheKey(quoteId)}
                                    else old(quoting.redis.store)
      ensures !r.Executed? ==> db.Db() == old(db.Db()) && quoting.redis.store == old(quoting.redis.store)
      ensures Answers(r, old(db.Db()), clientId, quoteId, key, now, errorsWrapped)
      ensures r.Executed? ==>
        && quoteId in old(db.quotes) && Traded(old(db.Db()), db.Db(), quoteId, key, tradeId)
        && db.trades == old(db.trades) + [r.trade]
      ensures Consistent(old(db.Db())) && !IdUsed(old(db.Db()), tradeId) ==> Consistent(db.Db())
    {
      var before := db.Db();
      var tx := ExecuteWithinTransaction(clientId, quoteId, key, now, tradeId);
      if tx.Failed? {
        FailureAnswers(before, clientId, quoteId, key, now, tradeId, tx.why, errorsWrapped);
        db.Rollback(before);
        if errorsWrapped && (tx.why == KeyTaken || tx.why == QuoteTaken) {
          return ServerError;
        }
        if tx.why == KeyTaken {
          var raced := FindByKey(db.trades, clientId, key);
          KeyTakenElsewhere(before, clientId, quoteId, key, now, tradeId);
          if raced.Some? {
            return ReplayOrConflict(raced.value, quoteId);
          }
        }
        return Refused(tx.why);
      }
      SuccessAnswers(before, clientId, quoteId, key, now, tradeId, tx.trade, errorsWrapped);
      TradeLeavesRows(before, clientId, quoteId, key, now, tradeId);
      if Consistent(before) && !IdUsed(before, tradeId) {
        TradeStep(before, clientId, quoteId, key, now, tradeId);
      }
      quoting.InvalidateCache(quoteId, reachable);
      return Executed(tx.trade);
    }
  }

  /** No two trades of a client share a key. */
  predicate UniqueKeys(trades: seq<Trade>) {
    forall t, u :: t in trades && u in trades && t.clientId == u.clientId && t.idempotencyKey == u.idempotencyKey ==> t == u
  }

  lemma HolderAnswers(trades: seq<Trade>, holder: Trade, quoteId: QuoteId)
    requires UniqueKeys(trades) && holder in trades
    ensures forall t :: t in trades && t.clientId == holder.clientId && t.idempotencyKey == holder.idempotencyKey ==>
      && (ReplayOrConflict(holder, quoteId) == Replayed(t) <==> t.quoteId == quoteId)
      && (ReplayOrConflict(holder, quoteId) == KeyConflict <==> t.quoteId != quoteId)
  {
  }

  /** The answer to a call whose key was not found, from the facts behind it. */
  predicate Answers(r: TradeResult, db: Database, clientId: ClientId, quoteId: QuoteId, key: string, now: int, errorsWrapped: bool) {
    && (r == Refused(NotFound) <==> Grounds(NotFound, db, clientId, quoteId, key, now))
    && (r == Refused(AlreadyExecuted) <==> Grounds(AlreadyExecuted, db, clientId, quoteId, key, now))
    && (r == Refused(Expired) <==> Grounds(Expired, db, clientId, quoteId, key, now))
    && (r == Refused(InsufficientBalance) <==> Grounds(InsufficientBalance, db, clientId, quoteId, key, now))
    && (r == Refused(OutOfRange) <==> Grounds(OutOfRange, db, clientId, quoteId, key, now))
    && (r == Refused(QuoteTaken) <==> !errorsWrapped && Grounds(QuoteTaken, db, clientId, quoteId, key, now))
    && (r == KeyConflict <==> !errorsWrapped && Grounds(KeyTaken, db, clientId, quoteId, key, now))
    && (r == ServerError <==> errorsWrapped && (Grounds(QuoteTaken, db, clientId, quoteId, key, now)
                                                || Grounds(KeyTaken, db, clientId, quoteId, key, now)))
    && (r.Executed? <==> Fills(db, clientId, quoteId, now) && !QuoteTraded(db.trades, quoteId)
                         && !KeyUsed(db.trades, clientId, key))
  }

  /** How a failed transaction is reported. */
  function Reported(why: Refusal, errorsWrapped: bool): TradeResult {
    if errorsWrapped && (why == KeyTaken || why == QuoteTaken) then ServerError
    else if why == KeyTaken then KeyConflict else Refused(why)
  }

  /** A failure is reported on its grounds exactly. */
  lemma FailureAnswers(db: Database, clientId: ClientId, quoteId: QuoteId, key: string, now: int, id: CallId, why: Refusal, errorsWrapped: bool)
    requires Settlement.ExecuteTrade(db, clientId, quoteId, key, now, id) == Aborted(why)
    ensures Answers(Reported(why, errorsWrapped), db, clientId, quoteId, key, now, errorsWrapped)
  {
    RefusedExactlyWhen(db, clientId, quoteId, key, now, id, why);
  }

  /** Success is reported when nothing stands against the trade. */
  lemma SuccessAnswers(db: Database, clientId: ClientId, quoteId: QuoteId, key: string, now: int, id: CallId, trade: Trade, errorsWrapped: bool)
    requires Settlement.ExecuteTrade(db, clientId, quoteId, key, now, id).Committed?
    ensures Answers(Executed(trade), db, clientId, quoteId, key, now, errorsWrapped)
  {
    CommittedExactlyWhen(db, clientId, quoteId, key, now, id);
  }

  /** The quote's own index is checked first, so a taken key was taken by another quote. */
  lemma KeyTakenElsewhere(db: Database, clientId: ClientId, quoteId: QuoteId, key: string, now: int, id: CallId)
    requires ExecuteTrade(db, clientId, quoteId, key, now, id) == Aborted(KeyTaken)
    ensures FindByIdempotencyKey(db.trades, clientId, key).Some?
    ensures FindByIdempotencyKey(db.trades, clientId, key).value.quoteId != quoteId
  {
    var found := FindByIdempotencyKey(db.trades, clientId, key).value;
    var i :| 0 <= i < |db.trades| && db.trades[i] == found;
  }

  /** The two currencies name the rows the trade touches. */
  lemma BothRows(balances: map<Account, int>, q: Quote)
    ensures ZeroRows(balances, LedgerService.Accounts(q.clientId, [DebitLeg(q).account.currency, CreditLeg(q).account.currency]))
         == ZeroRows(balances, TouchedAccounts(q))
  {
    var d, c := DebitLeg(q).account, CreditLeg(q).account;
    assert LedgerService.Accounts(q.clientId, [d.currency, c.currency]) == [d, c];
  }
}
