/**
 * Trading one pair at a fixed bid and ask: over every run, what the client holds is
 * worth no more than what was paid in for them, plus one minor unit for each trade
 * whose product needed more than 20 significant digits and was rounded the client's
 * way. Where every product has at most 20 there is no such trade.
 */
module NoFreeMoney {
  import opened Decimals
  import opened Money
  import opened QuotePricing
  import opened Schema
  import opened Settlement
  import opened LedgerInvariant
  import opened Protocol
  import opened ProtocolRuns

  /** One client trading one pair, both prices fixed. */
  datatype Market = Market(clientId: ClientId, base: Currency, quote: Currency, ask: Decimal, bid: Decimal)

  /** num / den units of quote currency for one unit of base currency. */
  datatype Mark = Mark(num: nat, den: nat)

  predicate Pair(m: Market) {
    m.base != m.quote && m.ask.coefficient > 0 && m.bid.coefficient > 0
  }

  /** bid <= mark <= ask. */
  predicate Between(m: Market, mark: Mark) {
    && mark.den > 0
    && m.bid.coefficient * mark.den <= mark.num * Pow10(m.bid.scale)
    && mark.num * Pow10(m.ask.scale) <= m.ask.coefficient * mark.den
  }

  /** A quote of the pair, priced the way createQuote prices it. */
  predicate PricedFor(m: Market, q: Quote) {
    && q.baseCurrency == m.base && q.quoteCurrency == m.quote
    && ComputeQuoteAmount(q.side, q.baseAmountMinor, m.ask, m.bid) == Some(QuoteAmount(q.price, q.quoteAmountMinor))
  }

  predicate OnlyTrades(m: Market, quotes: map<QuoteId, Quote>) {
    forall id :: id in quotes && quotes[id].clientId == m.clientId ==> PricedFor(m, quotes[id])
  }

  // ---- Value, in quote minor units times mark.den ----

  function Weight(m: Market, mark: Mark, a: Account): nat {
    if a.clientId != m.clientId then 0
    else if a.currency == m.base then mark.num
    else if a.currency == m.quote then mark.den
    else 0
  }

  /** What the client's balances are worth. */
  function Holdings(m: Market, mark: Mark, db: Database): int {
    Available(db.balances, Account(m.clientId, m.base)) * mark.num
    + Available(db.balances, Account(m.clientId, m.quote)) * mark.den
  }

  /** What seeding and deposits have paid in for the client. */
  function PaidIn(m: Market, mark: Mark, ledger: seq<Entry>): int {
    if ledger == [] then 0
    else
      var e := ledger[|ledger| - 1];
      PaidIn(m, mark, ledger[..|ledger| - 1])
      + if e.ref.TradeRef? then 0 else e.deltaMinor * Weight(m, mark, e.account)
  }

  function Turnover(m: Market, mark: Mark, ledger: seq<Entry>): int {
    if ledger == [] then 0
    else
      var e := ledger[|ledger| - 1];
      Turnover(m, mark, ledger[..|ledger| - 1]) + e.deltaMinor * Weight(m, mark, e.account)
  }

  /** The exact product of a trade, over the power of ten its price is scaled by. */
  function Product(m: Market, side: TradeSide, baseAmountMinor: nat): nat
    requires Pair(m)
  {
    baseAmountMinor * PriceFor(side, m.ask, m.bid).coefficient
  }

  /** 1 when the 20-digit product rounds the trade one unit in the client's favour. */
  function Short(m: Market, side: TradeSide, baseAmountMinor: nat): nat
    requires Pair(m)
  {
    if ExactFor(side, Product(m, side, baseAmountMinor), Pow10(PriceFor(side, m.ask, m.bid).scale)) then 0 else 1
  }

  /** How many of the client's trades were rounded one unit in the client's favour. */
  function Shorts(m: Market, trades: seq<Trade>): nat
    requires Pair(m)
  {
    if trades == [] then 0
    else
      var t := trades[|trades| - 1];
      Shorts(m, trades[..|trades| - 1])
      + if t.clientId == m.clientId && t.baseAmountMinor >= 0 then Short(m, t.side, t.baseAmountMinor) else 0
  }

  // ---- One trade ----

  lemma BuyGainsNothing(b: nat, c: nat, p: nat, cost: nat, short: nat, num: nat, den: nat)
    requires p > 0 && cost * p >= b * c - short * p && num * p <= c * den
    ensures b * num - cost * den <= short * den
  {
    var lhs, rhs := b * num - cost * den, short * den;
    assert lhs * p == b * (num * p) - (cost * p) * den;
    ScaleBoth(num * p, c * den, b);
    ScaleBoth(b * c - short * p, cost * p, den);
    assert (b * c - short * p) * den == b * (c * den) - rhs * p;
    MulMonotone(lhs, rhs, p);
  }

  lemma SellGainsNothing(b: nat, c: nat, p: nat, proceeds: nat, short: nat, num: nat, den: nat)
    requires p > 0 && proceeds * p <= b * c + short * p && c * den <= num * p
    ensures proceeds * den - b * num <= short * den
  {
    var lhs, rhs := proceeds * den - b * num, short * den;
    assert lhs * p == (proceeds * p) * den - b * (num * p);
    ScaleBoth(c * den, num * p, b);
    ScaleBoth(proceeds * p, b * c + short * p, den);
    assert (b * c + short * p) * den == b * (c * den) + rhs * p;
    MulMonotone(lhs, rhs, p);
  }

  lemma ScaleBoth(x: int, y: int, k: nat)
    requires x <= y
    ensures x * k <= y * k && k * x <= k * y
  {
  }

  lemma QuotientBounds(n: nat, p: nat)
    requires p > 0
    ensures Ceiling(n, p) * p >= n && Floor(n, p) * p <= n
  {
    assert n + p - 1 == Ceiling(n, p) * p + (n + p - 1) % p;
  }

  lemma TwentyZeros()
    ensures Pow10(20) == 100_000_000_000_000_000_000
  {
    assert Pow10(10) == 10_000_000_000;
    Pow10Add(10, 10);
  }

  lemma LargeProductOverflows(side: TradeSide, base: nat, ask: Decimal, bid: Decimal, n: nat, p: nat)
    requires Fits(base) && n == base * PriceFor(side, ask, bid).coefficient && p == Pow10(PriceFor(side, ask, bid).scale)
    requires n >= Pow10(20) * p
    ensures ComputeQuoteAmount(side, base, ask, bid).Some?
    ensures ComputeQuoteAmount(side, base, ask, bid).value.quoteAmountMinor > MAX_BIGINT
  {
    RelativeError(side, base, ask, bid, n, p);
    TwentyZeros();
    GridIsSmall(n);
    TooLarge(n, ComputeQuoteAmount(side, base, ask, bid).value.quoteAmountMinor, p, Grid(n));
  }

  lemma GridIsSmall(n: nat)
    requires n > 0
    ensures Grid(n) <= n
  {
    DigitsBounds(n);
    Pow10Monotone(Excess(n), Digits(n) - 1);
  }

  lemma TooLarge(n: nat, m: int, p: nat, grid: nat)
    requires p > 0 && grid <= n && n - grid / 2 <= m * p
    requires n >= 100_000_000_000_000_000_000 * p
    ensures m > MAX_BIGINT
  {
    if m <= MAX_BIGINT {
      MulMonotone(m, MAX_BIGINT, p);
    }
  }

  /** The amount a storable quote was priced at. A result that fits its column is exact to a unit. */
  lemma PricedAs(m: Market, q: Quote, b: nat, p: nat)
    requires Pair(m) && PricedFor(m, q) && StorableQuote(q.(status := ACTIVE))
    requires b == q.baseAmountMinor && p == Pow10(PriceFor(q.side, m.ask, m.bid).scale)
    ensures q.quoteAmountMinor ==
      if q.side == BUY then Ceiling(Product(m, BUY, b), p) - Short(m, BUY, b)
      else Floor(Product(m, SELL, b), p) + Short(m, SELL, b)
  {
    StorableFits(b);
    var n := Product(m, q.side, b);
    if n >= Pow10(20) * p {
      LargeProductOverflows(q.side, b, m.ask, m.bid, n, p);
    }
    DirectedRounding(q.side, b, m.ask, m.bid, n, p);
  }

  lemma BuyAmount(n: nat, p: nat, cost: nat, short: nat)
    requires p > 0 && cost == Ceiling(n, p) - short
    ensures cost * p >= n - short * p
  {
    QuotientBounds(n, p);
    assert cost * p == Ceiling(n, p) * p - short * p;
  }

  lemma SellAmount(n: nat, p: nat, proceeds: nat, short: nat)
    requires p > 0 && proceeds == Floor(n, p) + short
    ensures proceeds * p <= n + short * p
  {
    QuotientBounds(n, p);
    assert proceeds * p == Floor(n, p) * p + short * p;
  }

  /** The change in value a trade of the pair makes. */
  function Change(mark: Mark, q: Quote): int {
    if q.side == BUY then q.baseAmountMinor * mark.num - q.quoteAmountMinor * mark.den
    else q.quoteAmountMinor * mark.den - q.baseAmountMinor * mark.num
  }

  lemma TradeGain(m: Market, mark: Mark, q: Quote)
    requires Pair(m) && Between(m, mark) && PricedFor(m, q) && StorableQuote(q.(status := ACTIVE))
    ensures Change(mark, q) <= Short(m, q.side, q.baseAmountMinor) * mark.den
  {
    var b, cost: nat := q.baseAmountMinor, q.quoteAmountMinor;
    var price := PriceFor(q.side, m.ask, m.bid);
    var p, short := Pow10(price.scale), Short(m, q.side, b);
    PricedAs(m, q, b, p);
    if q.side == BUY {
      BuyAmount(Product(m, BUY, b), p, cost, short);
      BuyGainsNothing(b, price.coefficient, p, cost, short, mark.num, mark.den);
    } else {
      SellAmount(Product(m, SELL, b), p, cost, short);
      SellGainsNothing(b, price.coefficient, p, cost, short, mark.num, mark.den);
    }
  }

  // ---- Whole histories ----

  lemma {:induction false} TurnoverIsTotals(m: Market, mark: Mark, ledger: seq<Entry>)
    requires m.base != m.quote
    ensures Turnover(m, mark, ledger) == Total(ledger, Account(m.clientId, m.base)) * mark.num
                                       + Total(ledger, Account(m.clientId, m.quote)) * mark.den
  {
    if ledger != [] {
      var before, e := ledger[..|ledger| - 1], ledger[|ledger| - 1];
      TurnoverIsTotals(m, mark, before);
      var b, q := Account(m.clientId, m.base), Account(m.clientId, m.quote);
      Distribute(Total(before, b), if e.account == b then e.deltaMinor else 0, mark.num);
      Distribute(Total(before, q), if e.account == q then e.deltaMinor else 0, mark.den);
    }
  }

  lemma Distribute(x: int, y: int, k: int)
    ensures (x + y) * k == x * k + y * k
  {
  }

  /** What the client has gained by trading. */
  function Gain(m: Market, mark: Mark, ledger: seq<Entry>): int {
    Turnover(m, mark, ledger) - PaidIn(m, mark, ledger)
  }

  lemma GainAppend(m: Market, mark: Mark, ledger: seq<Entry>, e: Entry)
    ensures Gain(m, mark, ledger + [e])
         == Gain(m, mark, ledger) + if e.ref.TradeRef? then e.deltaMinor * Weight(m, mark, e.account) else 0
  {
    assert (ledger + [e])[..|ledger|] == ledger;
  }

  lemma ShortsAppend(m: Market, trades: seq<Trade>, t: Trade)
    requires Pair(m)
    ensures Shorts(m, trades + [t]) == Shorts(m, trades)
      + if t.clientId == m.clientId && t.baseAmountMinor >= 0 then Short(m, t.side, t.baseAmountMinor) else 0
  {
    assert (trades + [t])[..|trades|] == trades;
  }

  lemma LegsGain(m: Market, mark: Mark, ledger: seq<Entry>, q: Quote, id: CallId)
    requires Pair(m) && q.clientId == m.clientId && q.baseCurrency == m.base && q.quoteCurrency == m.quote
    ensures Gain(m, mark, ledger + [Entry(DebitLeg(q).account, -DebitLeg(q).amountMinor, TradeRef(id))]
                                 + [Entry(CreditLeg(q).account, CreditLeg(q).amountMinor, TradeRef(id))])
         == Gain(m, mark, ledger) + Change(mark, q)
  {
    var paid := Entry(DebitLeg(q).account, -DebitLeg(q).amountMinor, TradeRef(id));
    var got := Entry(CreditLeg(q).account, CreditLeg(q).amountMinor, TradeRef(id));
    GainAppend(m, mark, ledger, paid);
    GainAppend(m, mark, ledger + [paid], got);
  }

  lemma OthersLegsGainNothing(m: Market, mark: Mark, ledger: seq<Entry>, q: Quote, id: CallId)
    requires Pair(m) && q.clientId != m.clientId
    ensures Gain(m, mark, ledger + [Entry(DebitLeg(q).account, -DebitLeg(q).amountMinor, TradeRef(id))]
                                 + [Entry(CreditLeg(q).account, CreditLeg(q).amountMinor, TradeRef(id))])
         == Gain(m, mark, ledger)
  {
    var paid := Entry(DebitLeg(q).account, -DebitLeg(q).amountMinor, TradeRef(id));
    var got := Entry(CreditLeg(q).account, CreditLeg(q).amountMinor, TradeRef(id));
    GainAppend(m, mark, ledger, paid);
    GainAppend(m, mark, ledger + [paid], got);
  }

  /** Gain beyond what the rounding of single trades explains. */
  function Unexplained(m: Market, mark: Mark, db: Database): int
    requires Pair(m)
  {
    Gain(m, mark, db.ledger) - Shorts(m, db.trades) * mark.den
  }

  lemma GainExplained(gain: int, change: int, shorts: nat, short: nat, den: nat)
    requires change <= short * den
    ensures gain + change - (shorts + short) * den <= gain - shorts * den
  {
    Distribute(shorts, short, den);
  }

  lemma OwnSettledGain(m: Market, mark: Mark, db: Database, after: Database, q: Quote, t: Trade)
    requires Pair(m) && Between(m, mark) && StorableQuote(q.(status := ACTIVE))
    requires q.clientId == m.clientId && PricedFor(m, q)
    requires t == TradeOf(q, t.quoteId, t.idempotencyKey, t.id)
    requires after.ledger == db.ledger + [Entry(DebitLeg(q).account, -DebitLeg(q).amountMinor, TradeRef(t.id))]
                                       + [Entry(CreditLeg(q).account, CreditLeg(q).amountMinor, TradeRef(t.id))]
    requires after.trades == db.trades + [t]
    ensures Unexplained(m, mark, after) <= Unexplained(m, mark, db)
  {
    ShortsAppend(m, db.trades, t);
    LegsGain(m, mark, db.ledger, q, t.id);
    TradeGain(m, mark, q);
    GainExplained(Gain(m, mark, db.ledger), Change(mark, q), Shorts(m, db.trades),
                  Short(m, q.side, q.baseAmountMinor), mark.den);
  }

  lemma SettledGain(m: Market, mark: Mark, db: Database, after: Database, q: Quote, t: Trade)
    requires Pair(m) && Between(m, mark) && StorableQuote(q.(status := ACTIVE))
    requires q.clientId == m.clientId ==> PricedFor(m, q)
    requires t == TradeOf(q, t.quoteId, t.idempotencyKey, t.id)
    requires after.ledger == db.ledger + [Entry(DebitLeg(q).account, -DebitLeg(q).amountMinor, TradeRef(t.id))]
                                       + [Entry(CreditLeg(q).account, CreditLeg(q).amountMinor, TradeRef(t.id))]
    requires after.trades == db.trades + [t]
    ensures Unexplained(m, mark, after) <= Unexplained(m, mark, db)
  {
    if q.clientId == m.clientId {
      OwnSettledGain(m, mark, db, after, q, t);
    } else {
      ShortsAppend(m, db.trades, t);
      OthersLegsGainNothing(m, mark, db.ledger, q, t.id);
    }
  }

  lemma TradeGains(m: Market, mark: Mark, db: Database, op: Operation)
    requires Pair(m) && Between(m, mark) && Consistent(db) && op.TradeOp? && Perform(db, op).Some?
    requires OnlyTrades(m, Perform(db, op).value.quotes)
    ensures OnlyTrades(m, db.quotes)
    ensures Unexplained(m, mark, Perform(db, op).value) <= Unexplained(m, mark, db)
  {
    TradeEffect(db, op.clientId, op.quoteId, op.key, op.checkedAt, op.id);
    var q, after := db.quotes[op.quoteId], Perform(db, op).value;
    OnlyStatusChanged(m, db.quotes, after.quotes, op.quoteId);
    assert StorableQuote(q.(status := ACTIVE));
    SettledGain(m, mark, db, after, q, TradeOf(q, op.quoteId, op.key, op.id));
  }

  lemma OnlyStatusChanged(m: Market, quotes: map<QuoteId, Quote>, after: map<QuoteId, Quote>, quoteId: QuoteId)
    requires quoteId in quotes && after == quotes[quoteId := quotes[quoteId].(status := EXECUTED)] && OnlyTrades(m, after)
    ensures OnlyTrades(m, quotes)
  {
    forall id | id in quotes && quotes[id].clientId == m.clientId ensures PricedFor(m, quotes[id]) {
      assert PricedFor(m, after[id]);
    }
  }

  lemma StepGains(m: Market, mark: Mark, db: Database, op: Operation)
    requires Pair(m) && Between(m, mark) && Consistent(db) && Perform(db, op).Some?
    requires OnlyTrades(m, Perform(db, op).value.quotes)
    ensures OnlyTrades(m, db.quotes)
    ensures Unexplained(m, mark, Perform(db, op).value) <= Unexplained(m, mark, db)
  {
    match op
    case TradeOp(clientId, quoteId, key, checkedAt, id) =>
      TradeGains(m, mark, db, op);
    case DepositOp(leg, id) =>
      GainAppend(m, mark, db.ledger, Entry(leg.account, leg.amountMinor, DepositRef(id)));
    case QuoteOp(quoteId, quote) =>
      forall id | id in db.quotes && db.quotes[id].clientId == m.clientId ensures PricedFor(m, db.quotes[id]) {
        assert PricedFor(m, Perform(db, op).value.quotes[id]);
      }
  }

  lemma {:induction false} HistoryGains(m: Market, mark: Mark, db: Database, history: seq<Operation>)
    requires Pair(m) && Between(m, mark) && Consistent(db) && Replay(db, history).Some?
    requires OnlyTrades(m, Replay(db, history).value.quotes)
    ensures Unexplained(m, mark, Replay(db, history).value) <= Unexplained(m, mark, db)
  {
    if history != [] {
      var earlier := history[..|history| - 1];
      HistoryIsConsistent(db, earlier);
      StepGains(m, mark, Replay(db, earlier).value, history[|history| - 1]);
      HistoryGains(m, mark, db, earlier);
    }
  }

  lemma {:induction false} NoTradesNoGain(m: Market, mark: Mark, ledger: seq<Entry>)
    requires forall e :: e in ledger ==> !e.ref.TradeRef?
    ensures Gain(m, mark, ledger) == 0
  {
    if ledger != [] {
      NoTradesNoGain(m, mark, ledger[..|ledger| - 1]);
    }
  }

  lemma NothingGainedYet(m: Market, mark: Mark, db: Database)
    requires Pair(m) && Consistent(db) && db.trades == []
    ensures Unexplained(m, mark, db) == 0
  {
    NoTradesNoGain(m, mark, db.ledger);
  }

  lemma HistoryBound(m: Market, mark: Mark, db: Database, history: seq<Operation>, after: Database)
    requires Pair(m) && Between(m, mark) && Consistent(db) && db.trades == []
    requires Replay(db, history) == Some(after) && OnlyTrades(m, after.quotes)
    ensures Holdings(m, mark, after) <= PaidIn(m, mark, after.ledger) + Shorts(m, after.trades) * mark.den
  {
    NothingGainedYet(m, mark, db);
    HistoryGains(m, mark, db, history);
    HistoryIsConsistent(db, history);
    HoldingsAreTurnover(m, mark, after);
  }

  /**
   * However many calls run interleaved and however they end: valued at any mark
   * price between bid and ask, the client holds at most what was paid in, plus
   * one quote minor unit for each trade the 20-digit product rounded their way.
   */
  lemma HoldingsBound(m: Market, mark: Mark, db: Database, now: int, errorsWrapped: bool, actions: seq<Action>)
    requires Pair(m) && Between(m, mark) && Consistent(db) && db.trades == []
    requires Run(Start(db, now, errorsWrapped), actions).Some?
    requires OnlyTrades(m, Run(Start(db, now, errorsWrapped), actions).value.db.quotes)
    ensures var after := Run(Start(db, now, errorsWrapped), actions).value.db;
      Holdings(m, mark, after) <= PaidIn(m, mark, after.ledger) + Shorts(m, after.trades) * mark.den
  {
    var s := Run(Start(db, now, errorsWrapped), actions).value;
    Serializable(db, now, errorsWrapped, actions);
    HistoryBound(m, mark, db, s.history, s.db);
  }

  lemma HoldingsAreTurnover(m: Market, mark: Mark, db: Database)
    requires BalancesMatchLedger(db) && m.base != m.quote
    ensures Holdings(m, mark, db) == Turnover(m, mark, db.ledger)
  {
    TurnoverIsTotals(m, mark, db.ledger);
    assert Available(db.balances, Account(m.clientId, m.base)) == Total(db.ledger, Account(m.clientId, m.base));
    assert Available(db.balances, Account(m.clientId, m.quote)) == Total(db.ledger, Account(m.clientId, m.quote));
  }

  /** Every product has at most 20 significant digits. */
  predicate ExactRange(m: Market, trades: seq<Trade>)
    requires Pair(m)
  {
    forall t :: t in trades && t.clientId == m.clientId && t.baseAmountMinor >= 0 ==>
      Fits(Product(m, t.side, t.baseAmountMinor))
  }

  lemma {:induction false} ExactRangeHasNoShorts(m: Market, trades: seq<Trade>)
    requires Pair(m) && ExactRange(m, trades)
    ensures Shorts(m, trades) == 0
  {
    if trades != [] {
      var t := trades[|trades| - 1];
      ExactRangeHasNoShorts(m, trades[..|trades| - 1]);
      assert t in trades;
      if t.clientId == m.clientId && t.baseAmountMinor >= 0 {
        ExactWithinTwentyDigits(t.side, Product(m, t.side, t.baseAmountMinor), PriceFor(t.side, m.ask, m.bid).scale);
      }
    }
  }

  lemma ExactHistoryBound(m: Market, mark: Mark, db: Database, history: seq<Operation>, after: Database)
    requires Pair(m) && Between(m, mark) && Consistent(db) && db.trades == []
    requires Replay(db, history) == Some(after) && OnlyTrades(m, after.quotes) && ExactRange(m, after.trades)
    ensures Holdings(m, mark, after) <= PaidIn(m, mark, after.ledger)
  {
    ExactRangeHasNoShorts(m, after.trades);
    assert 0 * mark.den == 0;
    HistoryBound(m, mark, db, history, after);
  }

  /** No free money: in the exact range holdings never exceed what was paid in. */
  lemma HoldingsNeverExceedDeposits(m: Market, mark: Mark, db: Database, now: int, errorsWrapped: bool, actions: seq<Action>)
    requires Pair(m) && Between(m, mark) && Consistent(db) && db.trades == []
    requires Run(Start(db, now, errorsWrapped), actions).Some?
    requires var after := Run(Start(db, now, errorsWrapped), actions).value.db;
      OnlyTrades(m, after.quotes) && ExactRange(m, after.trades)
    ensures var after := Run(Start(db, now, errorsWrapped), actions).value.db;
      Holdings(m, mark, after) <= PaidIn(m, mark, after.ledger)
  {
    var s := Run(Start(db, now, errorsWrapped), actions).value;
    Serializable(db, now, errorsWrapped, actions);
    ExactHistoryBound(m, mark, db, s.history, s.db);
  }
}
