/** Creating quotes and reading them back through the cache, one call at a time. */
module QuotingService {
  import opened Decimals
  import opened Format
  import opened QuotePricing
  import opened Schema
  import opened Settlement
  import opened LedgerInvariant
  import opened QuoteMapper
  import opened Tables
  import RedisService

  datatype CreateError =
    | TooManyDecimals  // 400
    | NotPositive      // 400
    | TooSmall         // 400
    | PriceUnusable    // 500: the rounded amount is no whole number of minor units
    | OutOfColumn      // 500: an amount past bigint

  /** The row a request comes to, or why it comes to none. */
  datatype Draft = Draft(row: Quote) | NoDraft(error: CreateError)

  datatype CreateResult = Created(response: QuoteResponse) | Rejected(error: CreateError)

  /** The quote amount a text is priced at on a side; 0 when there is none. */
  function QuotedMinor(side: TradeSide, baseAmount: string, ask: Decimal, bid: Decimal): int {
    var priced := ComputeQuoteAmount(side, AmountOf(baseAmount), ask, bid);
    if priced.Some? then priced.value.quoteAmountMinor else 0
  }

  /** The row that has to be stored for a request. */
  predicate IsQuoteFor(row: Quote, clientId: ClientId, side: TradeSide, base: Currency, quote: Currency,
                       baseAmount: string, ask: Decimal, bid: Decimal, now: int) {
    && StorableQuote(row) && row.expiresAt == now + 15 * 1000
    && row.clientId == clientId && row.side == side && row.baseCurrency == base && row.quoteCurrency == quote
    && CutWorth(baseAmount, row.baseAmountMinor)
    && row.price == PriceFor(side, ask, bid)
    && ComputeQuoteAmount(side, row.baseAmountMinor, ask, bid) == Some(QuoteAmount(row.price, row.quoteAmountMinor))
  }

  class Service {
    const db: Connection
    const redis: RedisService.Service

    constructor (db: Connection, redis: RedisService.Service)
      ensures this.db == db && this.redis == redis
    {
      this.db, this.redis := db, redis;
    }

    /**
     * Which answer is given is fixed by the amount, the side's price and the column.
     * On success exactly one storable row is added, priced from the side's own price
     * and expiring in 15 s, and cached for as long; otherwise nothing changes. The
     * three later clock readings are those of the expiry, the cache write and the reply.
     */
    method CreateQuote(clientId: ClientId, side: TradeSide, base: Currency, quote: Currency, baseAmount: string,
                       ask: Decimal, bid: Decimal, id: QuoteId, now: int, writtenAt: int, repliedAt: int, reachable: bool)
      returns (r: CreateResult)
      requires id !in db.quotes && now <= writtenAt <= repliedAt
      modifies db, redis
      ensures db.balances == old(db.balances) && db.ledger == old(db.ledger) && db.trades == old(db.trades)
      ensures r.Created? ==>
        && id in db.quotes && db.quotes == old(db.quotes)[id := db.quotes[id]]
        && IsQuoteFor(db.quotes[id], clientId, side, base, quote, baseAmount, ask, bid, now)
        && r.response == ToQuoteResponse(db.quotes[id], repliedAt)
        && redis.store == if !reachable then old(redis.store) else
             old(redis.store)[RedisService.QuoteCacheKey(id) :=
               RedisService.Item(SerializeQuote(db.quotes[id]), writtenAt + 15 * 1000)]
      ensures r.Rejected? ==> db.quotes == old(db.quotes) && redis.store == old(redis.store)
      ensures r == Rejected(TooManyDecimals) <==> !Acceptable(baseAmount)
      ensures r == Rejected(NotPositive) <==> Acceptable(baseAmount) && AmountOf(baseAmount) <= 0
      ensures r != Rejected(PriceUnusable)
      ensures var amount, quoted := AmountOf(baseAmount), QuotedMinor(side, baseAmount, ask, bid);
        && (r == Rejected(TooSmall) <==> amount > 0 && quoted <= 0)
        && (r == Rejected(OutOfColumn) <==> amount > 0 && quoted > 0 && (amount > MAX_BIGINT || quoted > MAX_BIGINT))
        && (r.Created? <==> 0 < amount <= MAX_BIGINT && 0 < quoted <= MAX_BIGINT)
      ensures Consistent(old(db.Db())) ==> Consistent(db.Db())
    {
      var draft := Price(clientId, side, base, quote, baseAmount, ask, bid, now);
      if draft.NoDraft? {
        return Rejected(draft.error);
      }
      StoreQuote(id, draft.row, writtenAt, reachable);
      r := Created(ToQuoteResponse(draft.row, repliedAt));
    }

    /** The new row in the table, and in the cache for 15 s. */
    method StoreQuote(id: QuoteId, row: Quote, writtenAt: int, reachable: bool)
      requires id !in db.quotes && StorableQuote(row)
      modifies db, redis
      ensures db.Db() == old(db.Db()).(quotes := old(db.quotes)[id := row])
      ensures redis.store == if !reachable then old(redis.store) else
        old(redis.store)[RedisService.QuoteCacheKey(id) := RedisService.Item(SerializeQuote(row), writtenAt + 15 * 1000)]
      ensures Consistent(old(db.Db())) ==> Consistent(db.Db())
    {
      InsertQuote(id, row);
      redis.SetJson(RedisService.QuoteCacheKey(id), SerializeQuote(row), QUOTE_TTL_MS, writtenAt, reachable);
    }

    /** The guards of createQuote, in its order, and the row they let through. */
    method Price(clientId: ClientId, side: TradeSide, base: Currency, quote: Currency, baseAmount: string,
                 ask: Decimal, bid: Decimal, now: int)
      returns (draft: Draft)
      ensures draft == NoDraft(TooManyDecimals) <==> !Acceptable(baseAmount)
      ensures draft == NoDraft(NotPositive) <==> Acceptable(baseAmount) && AmountOf(baseAmount) <= 0
      ensures draft != NoDraft(PriceUnusable)
      ensures var amount, quoted := AmountOf(baseAmount), QuotedMinor(side, baseAmount, ask, bid);
        && (draft == NoDraft(TooSmall) <==> amount > 0 && quoted <= 0)
        && (draft == NoDraft(OutOfColumn) <==> amount > 0 && quoted > 0 && (amount > MAX_BIGINT || quoted > MAX_BIGINT))
        && (draft.Draft? <==> 0 < amount <= MAX_BIGINT && 0 < quoted <= MAX_BIGINT)
      ensures draft.Draft? ==> IsQuoteFor(draft.row, clientId, side, base, quote, baseAmount, ask, bid, now)
    {
      var amount := TextToMinorUnits(baseAmount);
      TextConvertsExactlyWhen(baseAmount);
      if amount.None? {
        return NoDraft(TooManyDecimals);
      }
      var baseAmountMinor := amount.value;
      if baseAmountMinor <= 0 {
        return NoDraft(NotPositive);
      }
      var priced := ComputeQuoteAmount(side, baseAmountMinor, ask, bid);
      AlwaysPriced(side, baseAmountMinor, ask, bid);
      if priced.None? {
        return NoDraft(PriceUnusable);
      }
      if priced.value.quoteAmountMinor <= 0 {
        return NoDraft(TooSmall);
      }
      if baseAmountMinor > MAX_BIGINT || priced.value.quoteAmountMinor > MAX_BIGINT {
        return NoDraft(OutOfColumn);
      }
      return Draft(Quote(clientId, side, base, quote, baseAmountMinor, priced.value.price,
                         priced.value.quoteAmountMinor, ACTIVE, now + QUOTE_TTL_MS));
    }

    /** INSERT quotes. */
    method InsertQuote(id: QuoteId, row: Quote)
      requires id !in db.quotes && StorableQuote(row)
      modifies db
      ensures db.Db() == old(db.Db()).(quotes := old(db.quotes)[id := row])
      ensures Consistent(old(db.Db())) ==> Consistent(db.Db())
    {
      if Consistent(db.Db()) { QuoteStep(db.Db(), id, row); }
      db.quotes := db.quotes[id := row];
    }

    /** The row a load at this moment gives: the cached one if it can be read, else the stored one. */
    function Loaded(id: QuoteId, now: int, reachable: bool): Option<Quote>
      reads this, db, redis
    {
      var cached := if reachable then redis.Live(RedisService.QuoteCacheKey(id), now) else None;
      if cached.Some? then DeserializeQuote(cached.value)
      else if id in db.quotes then Some(db.quotes[id]) else None
    }

    /** The cache can be read, and has an entry for the quote that has not reached its deadline. */
    predicate Served(id: QuoteId, now: int, reachable: bool)
      reads this, redis
    {
      reachable && RedisService.QuoteCacheKey(id) in redis.store && now < redis.store[RedisService.QuoteCacheKey(id)].deadline
    }

    /**
     * The cached row while its entry is live and can be read, else the stored one; a
     * stored row read that way is cached for exactly the time it has left, if any.
     */
    method LoadQuote(id: QuoteId, readAt: int, ttlAt: int, writtenAt: int, reachable: bool) returns (found: Option<Quote>)
      modifies redis
      ensures found == old(Loaded(id, readAt, reachable))
      ensures old(Served(id, readAt, reachable)) ==>
        && found == DeserializeQuote(old(redis.store[RedisService.QuoteCacheKey(id)]).value)
        && redis.store == old(redis.store)
      ensures !old(Served(id, readAt, reachable)) ==>
        && found == (if id in db.quotes then Some(db.quotes[id]) else None)
        && redis.store == if reachable && id in db.quotes && ttlAt < db.quotes[id].expiresAt
                          then old(redis.store)[RedisService.QuoteCacheKey(id) :=
                            RedisService.Item(SerializeQuote(db.quotes[id]), writtenAt + (db.quotes[id].expiresAt - ttlAt))]
                          else old(redis.store)
    {
      var cached := redis.GetJson(RedisService.QuoteCacheKey(id), readAt, reachable);
      if cached.Some? {
        return DeserializeQuote(cached.value);
      }
      if id !in db.quotes {
        return None;
      }
      var row := db.quotes[id];
      var remainingMs := row.expiresAt - ttlAt;
      if remainingMs > 0 {
        redis.SetJson(RedisService.QuoteCacheKey(id), SerializeQuote(row), remainingMs, writtenAt, reachable);
      }
      return Some(row);
    }

    /** A live cache entry is a copy of the stored row. */
    predicate CacheIsCopy(id: QuoteId, now: int)
      reads this, db, redis
    {
      redis.Live(RedisService.QuoteCacheKey(id), now).Some? ==>
        id in db.quotes && redis.Live(RedisService.QuoteCacheKey(id), now).value == SerializeQuote(db.quotes[id])
    }

    /**
     * Only the owner of the loaded row gets an answer. From a faithful cache the answer
     * is the stored quote, whether or not the cache could be read, and the cache stays faithful.
     */
    method GetQuoteById(clientId: ClientId, id: QuoteId, readAt: int, ttlAt: int, writtenAt: int, repliedAt: int, reachable: bool)
      returns (response: Option<QuoteResponse>)
      requires readAt <= ttlAt <= writtenAt <= repliedAt
      modifies redis
      ensures var row := old(Loaded(id, readAt, reachable));
        response == if row.Some? && row.value.clientId == clientId then Some(ToQuoteResponse(row.value, repliedAt)) else None
      ensures !old(Served(id, readAt, reachable)) ==>
        response == if id in db.quotes && db.quotes[id].clientId == clientId
                    then Some(ToQuoteResponse(db.quotes[id], repliedAt)) else None
      ensures old(Served(id, readAt, reachable)) ==>
        var row := DeserializeQuote(old(redis.store[RedisService.QuoteCacheKey(id)]).value);
        response == if row.Some? && row.value.clientId == clientId then Some(ToQuoteResponse(row.value, repliedAt)) else None
      ensures old(CacheIsCopy(id, readAt)) ==>
        && CacheIsCopy(id, writtenAt)
        && response == if id in db.quotes && db.quotes[id].clientId == clientId
                       then Some(ToQuoteResponse(db.quotes[id], repliedAt)) else None
    {
      var row := LoadQuote(id, readAt, ttlAt, writtenAt, reachable);
      if id in db.quotes { CachedRowRoundTrip(db.quotes[id]); }
      response := if row.Some? && row.value.clientId == clientId then Some(ToQuoteResponse(row.value, repliedAt)) else None;
    }

    method InvalidateCache(id: QuoteId, reachable: bool)
      modifies redis
      ensures redis.store == if reachable then old(redis.store) - {RedisService.QuoteCacheKey(id)} else old(redis.store)
    {
      redis.Del(RedisService.QuoteCacheKey(id), reachable);
    }
  }
}
