/**
 * The ledger invariant and exactly-once settlement, for every history of
 * trades, deposits and new quotes run one at a time.
 */
module LedgerInvariant {
  import opened Schema
  import opened Settlement

  // ---- Reading the ledger ----

  /** Sum of the ledger deltas of one account. */
  function Total(ledger: seq<Entry>, a: Account): int {
    if ledger == [] then 0
    else
      var last := ledger[|ledger| - 1];
      Total(ledger[..|ledger| - 1], a) + if last.account == a then last.deltaMinor else 0
  }

  /** The entries written for one trade or deposit, oldest first. */
  function EntriesFor(ledger: seq<Entry>, ref: Ref): seq<Entry> {
    if ledger == [] then []
    else
      var last := ledger[|ledger| - 1];
      EntriesFor(ledger[..|ledger| - 1], ref) + if last.ref == ref then [last] else []
  }

  lemma Append(ledger: seq<Entry>, e: Entry)
    ensures forall a :: Total(ledger + [e], a) == Total(ledger, a) + if e.account == a then e.deltaMinor else 0
    ensures forall ref :: EntriesFor(ledger + [e], ref) == EntriesFor(ledger, ref) + if e.ref == ref then [e] else []
  {
    assert (ledger + [e])[..|ledger|] == ledger;
  }

  lemma {:induction false} NoEntries(ledger: seq<Entry>, ref: Ref)
    requires forall e :: e in ledger ==> e.ref != ref
    ensures EntriesFor(ledger, ref) == []
  {
    if ledger != [] {
      NoEntries(ledger[..|ledger| - 1], ref);
    }
  }

  // ---- The invariant ----

  /** `balances` is a cache over `ledger_entries`, never negative, inside the column. */
  ghost predicate BalancesMatchLedger(db: Database) {
    forall a: Account :: 0 <= Available(db.balances, a) == Total(db.ledger, a) <= MAX_BIGINT
  }

  /** The primary key and the two unique indexes of `trades`. */
  ghost predicate TradesUnique(trades: seq<Trade>) {
    forall i, j :: 0 <= i < j < |trades| ==>
      && trades[i].id != trades[j].id
      && trades[i].quoteId != trades[j].quoteId
      && !HasKey(trades[i], trades[j].clientId, trades[j].idempotencyKey)
  }

  /** A quote is EXECUTED exactly when some trade references it. */
  ghost predicate QuotesMatchTrades(db: Database) {
    forall id :: id in db.quotes ==>
      && StorableQuote(db.quotes[id].(status := ACTIVE))
      && (db.quotes[id].status == EXECUTED <==> QuoteUsed(db.trades, id))
  }

  /** The trade copies its quote, and its two ledger entries are the quote's two legs. */
  ghost predicate SettledFrom(db: Database, t: Trade) {
    && t.quoteId in db.quotes
    && var q := db.quotes[t.quoteId];
      && t == TradeOf(q, t.quoteId, t.idempotencyKey, t.id)
      && EntriesFor(db.ledger, TradeRef(t.id)) ==
           [Entry(DebitLeg(q).account, -DebitLeg(q).amountMinor, TradeRef(t.id)),
            Entry(CreditLeg(q).account, CreditLeg(q).amountMinor, TradeRef(t.id))]
  }

  ghost predicate TradesSettled(db: Database) {
    && (forall t :: t in db.trades ==> SettledFrom(db, t))
    && (forall e :: e in db.ledger && e.ref.TradeRef? ==> exists t :: t in db.trades && t.id == e.ref.trade)
  }

  ghost predicate Consistent(db: Database) {
    && BalancesMatchLedger(db)
    && TradesUnique(db.trades)
    && QuotesMatchTrades(db)
    && TradesSettled(db)
  }

  lemma EmptyIsConsistent()
    ensures Consistent(EMPTY_DATABASE)
  {
  }

  // ---- Every primitive keeps balances and ledger in step ----

  lemma EnsureRowsKeepsBalances(db: Database, accounts: seq<Account>)
    ensures forall a :: Available(EnsureRows(db, accounts).balances, a) == Available(db.balances, a)
  {
  }

  lemma DebitKeepsLedger(db: Database, leg: Leg, ref: Ref)
    requires BalancesMatchLedger(db) && leg.amountMinor > 0
    requires Debit(db, leg, ref).Some?
    ensures BalancesMatchLedger(Debit(db, leg, ref).value)
  {
    var after := Debit(db, leg, ref).value;
    Append(db.ledger, Entry(leg.account, -leg.amountMinor, ref));
    forall a: Account ensures 0 <= Available(after.balances, a) == Total(after.ledger, a) <= MAX_BIGINT {
      assert 0 <= Available(db.balances, a) == Total(db.ledger, a) <= MAX_BIGINT;
    }
  }

  lemma CreditKeepsLedger(db: Database, leg: Leg, ref: Ref)
    requires BalancesMatchLedger(db) && leg.amountMinor > 0
    requires Credit(db, leg, ref).Some?
    ensures BalancesMatchLedger(Credit(db, leg, ref).value)
  {
    var after := Credit(db, leg, ref).value;
    Append(db.ledger, Entry(leg.account, leg.amountMinor, ref));
    forall a: Account ensures 0 <= Available(after.balances, a) == Total(after.ledger, a) <= MAX_BIGINT {
      assert 0 <= Available(db.balances, a) == Total(db.ledger, a) <= MAX_BIGINT;
    }
  }

  // ---- Whole operations ----

  lemma DepositStep(db: Database, leg: Leg, id: CallId)
    requires Consistent(db) && leg.amountMinor > 0 && ExecuteDeposit(db, leg, id).Committed?
    ensures Consistent(ExecuteDeposit(db, leg, id).db)
  {
    var rows := EnsureRows(db, [leg.account]);
    var after := ExecuteDeposit(db, leg, id).db;
    EnsureRowsKeepsBalances(db, [leg.account]);
    assert BalancesMatchLedger(rows) by {
      forall a: Account ensures 0 <= Available(rows.balances, a) == Total(rows.ledger, a) <= MAX_BIGINT {
        assert 0 <= Available(db.balances, a) == Total(db.ledger, a) <= MAX_BIGINT;
      }
    }
    CreditKeepsLedger(rows, leg, DepositRef(id));
    Append(db.ledger, Entry(leg.account, leg.amountMinor, DepositRef(id)));
    forall t | t in after.trades ensures SettledFrom(after, t) {
      assert SettledFrom(db, t);
    }
  }

  /** The database a committed trade leaves, written out field by field. */
  lemma TradeEffect(db: Database, clientId: ClientId, quoteId: QuoteId, key: string, now: int, id: CallId)
    requires ExecuteTrade(db, clientId, quoteId, key, now, id).Committed?
    ensures CheckQuote(db, clientId, quoteId, now).None?
    ensures var q, after := db.quotes[quoteId], ExecuteTrade(db, clientId, quoteId, key, now, id).db;
      && after.ledger == db.ledger + [Entry(DebitLeg(q).account, -DebitLeg(q).amountMinor, TradeRef(id))]
                                   + [Entry(CreditLeg(q).account, CreditLeg(q).amountMinor, TradeRef(id))]
      && after.quotes == db.quotes[quoteId := q.(status := EXECUTED)]
      && after.trades == db.trades + [TradeOf(q, quoteId, key, id)]
      && !QuoteUsed(db.trades, quoteId)
      && (forall t :: t in db.trades ==> !HasKey(t, clientId, key))
  {
  }

  lemma TradeKeepsLedger(db: Database, clientId: ClientId, quoteId: QuoteId, key: string, now: int, id: CallId)
    requires Consistent(db)
    requires ExecuteTrade(db, clientId, quoteId, key, now, id).Committed?
    ensures BalancesMatchLedger(ExecuteTrade(db, clientId, quoteId, key, now, id).db)
  {
    var q := db.quotes[quoteId];
    var rows := EnsureRows(db, TouchedAccounts(q));
    EnsureRowsKeepsBalances(db, TouchedAccounts(q));
    assert BalancesMatchLedger(rows) by {
      forall a: Account ensures 0 <= Available(rows.balances, a) == Total(rows.ledger, a) <= MAX_BIGINT {
        assert 0 <= Available(db.balances, a) == Total(db.ledger, a) <= MAX_BIGINT;
      }
    }
    assert StorableQuote(q.(status := ACTIVE));
    DebitKeepsLedger(rows, DebitLeg(q), TradeRef(id));
    var debited := Debit(rows, DebitLeg(q), TradeRef(id)).value;
    CreditKeepsLedger(debited, CreditLeg(q), TradeRef(id));
    var credited := Credit(debited, CreditLeg(q), TradeRef(id)).value;
    var after := ExecuteTrade(db, clientId, quoteId, key, now, id).db;
    forall a: Account ensures 0 <= Available(after.balances, a) == Total(after.ledger, a) <= MAX_BIGINT {
      assert 0 <= Available(credited.balances, a) == Total(credited.ledger, a) <= MAX_BIGINT;
    }
  }

  /** What a settled trade adds to ledger, trades and quotes. */
  ghost predicate Settles(db: Database, after: Database, t: Trade, quoteId: QuoteId) {
    && quoteId in db.quotes && !QuoteUsed(db.trades, quoteId)
    && var q := db.quotes[quoteId];
      && t == TradeOf(q, quoteId, t.idempotencyKey, t.id)
      && after.ledger == db.ledger + [Entry(DebitLeg(q).account, -DebitLeg(q).amountMinor, TradeRef(t.id))]
                                   + [Entry(CreditLeg(q).account, CreditLeg(q).amountMinor, TradeRef(t.id))]
      && after.quotes == db.quotes[quoteId := q.(status := EXECUTED)]
      && after.trades == db.trades + [t]
  }

  lemma SettlingKeepsQuotes(db: Database, after: Database, t: Trade, quoteId: QuoteId)
    requires QuotesMatchTrades(db) && Settles(db, after, t, quoteId)
    ensures QuotesMatchTrades(after)
  {
    forall other | other in after.quotes
      ensures StorableQuote(after.quotes[other].(status := ACTIVE))
      ensures after.quotes[other].status == EXECUTED <==> QuoteUsed(after.trades, other)
    {
      assert StorableQuote(db.quotes[other].(status := ACTIVE));
      assert after.trades[|db.trades|] == t;
      if other != quoteId && QuoteUsed(db.trades, other) {
        var i :| 0 <= i < |db.trades| && db.trades[i].quoteId == other;
        assert after.trades[i].quoteId == other;
      }
    }
  }

  lemma SettlingKeepsOldTrades(db: Database, after: Database, t: Trade, quoteId: QuoteId)
    requires TradesSettled(db) && Settles(db, after, t, quoteId) && !IdUsed(db, t.id)
    ensures forall u :: u in db.trades ==> u.id != t.id && SettledFrom(after, u)
    ensures SettledFrom(after, t)
  {
    var q := db.quotes[quoteId];
    var first := Entry(DebitLeg(q).account, -DebitLeg(q).amountMinor, TradeRef(t.id));
    var second := Entry(CreditLeg(q).account, CreditLeg(q).amountMinor, TradeRef(t.id));
    Append(db.ledger, first);
    Append(db.ledger + [first], second);
    NoEntries(db.ledger, TradeRef(t.id));
    forall u | u in db.trades ensures u.id != t.id && SettledFrom(after, u) {
      assert SettledFrom(db, u);
      assert EntriesFor(db.ledger, TradeRef(u.id)) != [];
    }
  }

  lemma SettlingKeepsTrades(db: Database, after: Database, t: Trade, quoteId: QuoteId)
    requires TradesSettled(db) && Settles(db, after, t, quoteId) && !IdUsed(db, t.id)
    ensures TradesSettled(after)
  {
    SettlingKeepsOldTrades(db, after, t, quoteId);
    assert t in after.trades;
    forall e | e in after.ledger && e.ref.TradeRef? ensures exists u :: u in after.trades && u.id == e.ref.trade {
      if e in db.ledger {
        var u :| u in db.trades && u.id == e.ref.trade;
        assert u in after.trades;
      } else {
        assert t in after.trades && t.id == e.ref.trade;
      }
    }
  }

  /** A trade is settled by exactly the two entries its own transaction wrote. */
  lemma TradeStep(db: Database, clientId: ClientId, quoteId: QuoteId, key: string, now: int, id: CallId)
    requires Consistent(db) && !IdUsed(db, id)
    requires ExecuteTrade(db, clientId, quoteId, key, now, id).Committed?
    ensures Consistent(ExecuteTrade(db, clientId, quoteId, key, now, id).db)
  {
    TradeKeepsLedger(db, clientId, quoteId, key, now, id);
    TradeEffect(db, clientId, quoteId, key, now, id);
    var after := ExecuteTrade(db, clientId, quoteId, key, now, id).db;
    var t := TradeOf(db.quotes[quoteId], quoteId, key, id);
    SettlingKeepsQuotes(db, after, t, quoteId);
    SettlingKeepsTrades(db, after, t, quoteId);
    SettlingKeepsOldTrades(db, after, t, quoteId);
    forall i | 0 <= i < |db.trades|
      ensures db.trades[i].id != id && db.trades[i].quoteId != quoteId && !HasKey(db.trades[i], clientId, key)
    {
      assert db.trades[i] in db.trades;
    }
  }

  lemma QuoteStep(db: Database, quoteId: QuoteId, quote: Quote)
    requires Consistent(db) && quoteId !in db.quotes && StorableQuote(quote)
    ensures Consistent(db.(quotes := db.quotes[quoteId := quote]))
  {
    var after := db.(quotes := db.quotes[quoteId := quote]);
    forall t | t in after.trades ensures SettledFrom(after, t) {
      assert SettledFrom(db, t);
    }
    forall a: Account ensures 0 <= Available(after.balances, a) == Total(after.ledger, a) <= MAX_BIGINT {
      assert 0 <= Available(db.balances, a) == Total(db.ledger, a) <= MAX_BIGINT;
    }
    forall i | 0 <= i < |db.trades| ensures db.trades[i].quoteId != quoteId {
      assert SettledFrom(db, db.trades[i]);
    }
  }

  lemma PerformStep(db: Database, op: Operation)
    requires Consistent(db) && Perform(db, op).Some?
    ensures Consistent(Perform(db, op).value)
  {
    match op
    case TradeOp(clientId, quoteId, key, checkedAt, id) => TradeStep(db, clientId, quoteId, key, checkedAt, id);
    case DepositOp(leg, id) => DepositStep(db, leg, id);
    case QuoteOp(quoteId, quote) => QuoteStep(db, quoteId, quote);
  }

  /** Every history, of any length, leaves a consistent database. */
  lemma {:induction false} HistoryIsConsistent(db: Database, history: seq<Operation>)
    requires Consistent(db) && Replay(db, history).Some?
    ensures Consistent(Replay(db, history).value)
  {
    if history != [] {
      HistoryIsConsistent(db, history[..|history| - 1]);
      PerformStep(Replay(db, history[..|history| - 1]).value, history[|history| - 1]);
    }
  }
}
