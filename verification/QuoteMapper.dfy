/** A quote as it is cached and as it is shown. */
module QuoteMapper {
  import opened Decimals
  import opened Format
  import opened Money
  import opened Schema
  import opened Settlement

  /** How long a quote is good for: DEFAULT_QUOTE_TTL_SECONDS. */
  const QUOTE_TTL_MS: int := 15_000

  /** The JSON-safe form: integers as text. */
  datatype CachedQuote = CachedQuote(
    clientId: ClientId, side: TradeSide, baseCurrency: Currency, quoteCurrency: Currency,
    baseAmountMinor: string, price: Decimal, quoteAmountMinor: string,
    status: QuoteStatus, expiresAt: int)

  /** EXPIRED is never stored; it exists only in responses. */
  datatype DisplayStatus = Stored(status: QuoteStatus) | EXPIRED

  datatype QuoteResponse = QuoteResponse(
    side: TradeSide, baseCurrency: Currency, quoteCurrency: Currency,
    baseAmount: string, price: Decimal, quoteAmount: string,
    status: DisplayStatus, expiresAt: int)

  // ---- BigInt to text and back ----

  function BigIntString(n: int): string {
    if n < 0 then "-" + NatString(-n) else NatString(n)
  }

  function ParseBigInt(s: string): Option<int> {
    if s != "" && s[0] == '-' then
      if s[1..] != "" && AllDigits(s[1..]) then Some(-(ParseNat(s[1..]) as int)) else None
    else if AllDigits(s) then Some(ParseNat(s))
    else None
  }

  lemma BigIntRoundTrip(n: int)
    ensures ParseBigInt(BigIntString(n)) == Some(n)
  {
    NatStringReads(Magnitude(n));
    if n < 0 {
      assert BigIntString(n)[1..] == NatString(-n);
    } else {
      assert BigIntString(n)[0] in NatString(n);
    }
  }

  // ---- serializeQuote, deserializeQuote, toQuoteResponse ----

  function SerializeQuote(row: Quote): CachedQuote {
    CachedQuote(row.clientId, row.side, row.baseCurrency, row.quoteCurrency,
                BigIntString(row.baseAmountMinor), row.price, BigIntString(row.quoteAmountMinor),
                row.status, row.expiresAt)
  }

  /** None where BigInt throws. */
  function DeserializeQuote(cached: CachedQuote): Option<Quote> {
    match (ParseBigInt(cached.baseAmountMinor), ParseBigInt(cached.quoteAmountMinor))
    case (Some(base), Some(quote)) =>
      Some(Quote(cached.clientId, cached.side, cached.baseCurrency, cached.quoteCurrency,
                 base, cached.price, quote, cached.status, cached.expiresAt))
    case _ => None
  }

  function ToQuoteResponse(row: Quote, now: int): QuoteResponse {
    QuoteResponse(row.side, row.baseCurrency, row.quoteCurrency,
                  FormatMinorUnits(row.baseAmountMinor), row.price, FormatMinorUnits(row.quoteAmountMinor),
                  if row.status == ACTIVE && now >= row.expiresAt then EXPIRED else Stored(row.status),
                  row.expiresAt)
  }

  /** Every row survives the cache, whatever its amounts. */
  lemma CachedRowRoundTrip(row: Quote)
    ensures DeserializeQuote(SerializeQuote(row)) == Some(row)
  {
    BigIntRoundTrip(row.baseAmountMinor);
    BigIntRoundTrip(row.quoteAmountMinor);
  }

  /** The text reads back as exactly this many minor units. */
  predicate Shows(text: string, minor: int) {
    Parse(text).Some? && ToMinorUnits(Parse(text).value) == Some(minor)
  }

  /** A response shows a stored row's amounts exactly, and ACTIVE only before it expires. */
  lemma ResponseIsFaithful(row: Quote, now: int)
    requires StorableQuote(row.(status := ACTIVE))
    ensures var r := ToQuoteResponse(row, now);
      && Shows(r.baseAmount, row.baseAmountMinor) && Shows(r.quoteAmount, row.quoteAmountMinor)
      && (r.status == Stored(ACTIVE) <==> row.status == ACTIVE && now < row.expiresAt)
      && (r.status == Stored(EXECUTED) <==> row.status == EXECUTED)
  {
    StorableFits(row.baseAmountMinor);
    StorableFits(row.quoteAmountMinor);
    FormatParseRoundTrip(row.baseAmountMinor);
    FormatParseRoundTrip(row.quoteAmountMinor);
  }
}
