/** What every call has done and holds at every point of every interleaving. */
module ProtocolInvariant {
  import opened Schema
  import opened Settlement
  import opened LedgerInvariant
  import opened Protocol

  // ---- What a call holds ----

  /** The locks a call has at each statement, read off its position alone. */
  predicate Holds(c: Call, lock: Lock) {
    match lock
    case RowLock(a) =>
      || (c.phase.AtRowInsert? && a in c.writes)
      || (c.phase.AtRowLock? && (a in c.writes || a in LockOrder(c.request, c.quote)[..c.phase.next]))
      || (RowsLocked(c.phase) && a in Accounts(c.request, c.quote))
    case QuoteLock(quoteId) =>
      c.request.TradeRequest? && HasQuote(c.phase) && quoteId == c.request.quoteId
    case QuoteIndex(quoteId) =>
      c.request.TradeRequest? && 10 <= Position(c.phase) <= 12 && quoteId == c.request.quoteId
    case KeyIndex(clientId, key) =>
      c.request.TradeRequest? && 11 <= Position(c.phase) <= 12 && clientId == c.request.clientId && key == c.request.key
  }

  // ---- What a call has written ----

  function DebitWrites(balances: map<Account, int>, r: Request, q: Option<Quote>): map<Account, int>
    requires LegsKnown(r, q)
  {
    var zero := ZeroRows(balances, Accounts(r, q));
    if r.DepositRequest? then zero
    else zero[DebitLeg(q.value).account := Seen(balances, zero, DebitLeg(q.value).account) - DebitLeg(q.value).amountMinor]
  }

  function CreditWrites(balances: map<Account, int>, r: Request, q: Option<Quote>): map<Account, int>
    requires LegsKnown(r, q)
  {
    var debited := DebitWrites(balances, r, q);
    debited[Credited(r, q).account := Seen(balances, debited, Credited(r, q).account) + Credited(r, q).amountMinor]
  }

  function ExpectedWrites(balances: map<Account, int>, c: Call): map<Account, int> {
    match c.phase
    case AtRowInsert(next) => ZeroRows(balances, Accounts(c.request, c.quote)[..next])
    case AtRowLock(_) | AtDebit => ZeroRows(balances, Accounts(c.request, c.quote))
    case AtDebitEntry | AtCredit => DebitWrites(balances, c.request, c.quote)
    case AtCreditEntry | AtTradeInsert | AtKeyIndex | AtQuoteFlip | AtCommit => CreditWrites(balances, c.request, c.quote)
    case _ => map[]
  }

  function DebitEntries(id: CallId, r: Request, q: Option<Quote>): seq<Entry>
    requires LegsKnown(r, q)
  {
    if r.DepositRequest? then []
    else [Entry(DebitLeg(q.value).account, -DebitLeg(q.value).amountMinor, TradeRef(id))]
  }

  function AllEntries(id: CallId, r: Request, q: Option<Quote>): seq<Entry>
    requires LegsKnown(r, q)
  {
    DebitEntries(id, r, q) + [Entry(Credited(r, q).account, Credited(r, q).amountMinor, RefOf(r, id))]
  }

  function ExpectedEntries(id: CallId, c: Call): seq<Entry> {
    match c.phase
    case AtCredit | AtCreditEntry => DebitEntries(id, c.request, c.quote)
    case AtTradeInsert | AtKeyIndex | AtQuoteFlip | AtCommit => AllEntries(id, c.request, c.quote)
    case _ => []
  }

  predicate DebitCovered(balances: map<Account, int>, r: Request, q: Option<Quote>)
    requires LegsKnown(r, q)
  {
    r.TradeRequest? ==>
      Seen(balances, ZeroRows(balances, Accounts(r, q)), DebitLeg(q.value).account) >= DebitLeg(q.value).amountMinor
  }

  predicate CreditFits(balances: map<Account, int>, r: Request, q: Option<Quote>)
    requires LegsKnown(r, q)
  {
    && Credited(r, q).amountMinor <= MAX_BIGINT
    && Seen(balances, DebitWrites(balances, r, q), Credited(r, q).account) + Credited(r, q).amountMinor <= MAX_BIGINT
  }

  /** The guards a call has passed still hold of the committed rows it has locked. */
  predicate GuardsHold(balances: map<Account, int>, c: Call) {
    && (6 <= Position(c.phase) <= 12 ==> DebitCovered(balances, c.request, c.quote))
    && (8 <= Position(c.phase) <= 12 ==> CreditFits(balances, c.request, c.quote))
  }

  // ---- What a call knows of quotes and trades ----

  ghost predicate KeySettledElsewhere(trades: seq<Trade>, r: Request)
    requires r.TradeRequest?
  {
    exists t :: t in trades && HasKey(t, r.clientId, r.key) && t.quoteId != r.quoteId
  }

  /** The committed rows bear out what the call was told. */
  ghost predicate AnswerHolds(db: Database, id: CallId, r: Request, answer: Answer) {
    match answer
    case Created(t) =>
      r.TradeRequest? && t in db.trades && t.id == id && HasKey(t, r.clientId, r.key) && t.quoteId == r.quoteId
    case Replayed(t) =>
      r.TradeRequest? && t in db.trades && HasKey(t, r.clientId, r.key) && t.quoteId == r.quoteId && !IdUsed(db, id)
    case KeyConflict => r.TradeRequest? && KeySettledElsewhere(db.trades, r) && !IdUsed(db, id)
    case Refused(why) =>
      && why != QuoteTaken && why != KeyTaken && !IdUsed(db, id)
      && (why == AlreadyExecuted ==> r.TradeRequest? && r.quoteId in db.quotes && db.quotes[r.quoteId].status == EXECUTED)
    case Deposited => r.DepositRequest?
    case ServerError => true
  }

  ghost predicate QuoteKnown(db: Database, c: Call) {
    c.request.TradeRequest? ==>
      && (HasQuote(c.phase) ==> c.request.quoteId in db.quotes && db.quotes[c.request.quoteId] == c.quote.value)
      && (AfterCheck(c.phase) ==> CheckQuoteRow(c.quote.value, c.request.clientId, c.checkedAt) == None)
      && (11 <= Position(c.phase) <= 12 ==>
            FindByIdempotencyKey(db.trades, c.request.clientId, c.request.key) == None)
  }

  ghost predicate LocksInv(c: Call) {
    forall lock :: lock in c.locks <==> Holds(c, lock)
  }

  ghost predicate MoneyInv(balances: map<Account, int>, id: CallId, c: Call) {
    && c.writes == ExpectedWrites(balances, c)
    && c.entries == ExpectedEntries(id, c)
    && GuardsHold(balances, c)
  }

  ghost predicate FactsInv(db: Database, id: CallId, c: Call) {
    && QuoteKnown(db, c)
    && (c.trade == if c.request.TradeRequest? && 11 <= Position(c.phase) <= 12
                   then Some(TradeOf(c.quote.value, c.request.quoteId, c.request.key, id)) else None)
    && (c.flipped <==> c.request.TradeRequest? && c.phase.AtCommit?)
    && (c.request.DepositRequest? ==> c.request.leg.amountMinor > 0)
    && (!Finished(c) ==> !IdUsed(db, id))
    && (c.phase.AtRaceLookup? ==> KeySettledElsewhere(db.trades, c.request))
    && (Finished(c) ==> AnswerHolds(db, id, c.request, c.phase.answer))
  }

  ghost predicate CallInv(db: Database, id: CallId, c: Call) {
    LocksInv(c) && MoneyInv(db.balances, id, c) && FactsInv(db, id, c)
  }

  /** No lock and no in-flight index entry has two holders. */
  ghost predicate Exclusive(calls: map<CallId, Call>) {
    forall u, v, lock :: u in calls && v in calls && u != v && lock in calls[u].locks ==> lock !in calls[v].locks
  }

  ghost predicate EveryCall(db: Database, calls: map<CallId, Call>) {
    forall id :: id in calls ==> CallInv(db, id, calls[id])
  }

  ghost predicate Inv(s: State) {
    && Consistent(s.db)
    && EveryCall(s.db, s.calls)
    && Exclusive(s.calls)
  }

  // ---- A call's own statements ----

  lemma BeginKeeps(db: Database, id: CallId, r: Request)
    requires !IdUsed(db, id) && (r.DepositRequest? ==> r.leg.amountMinor > 0)
    ensures CallInv(db, id, NewCall(r, if r.TradeRequest? then AtLookup else AtRowInsert(0)))
  {
  }

  lemma RowInsertLocks(s: State, id: CallId, c: Call)
    requires LocksInv(c) && c.phase.AtRowInsert? && TryRowInsert(s, id, c).Local?
    ensures LocksInv(TryRowInsert(s, id, c).call)
  {
    var c': Call := TryRowInsert(s, id, c).call;
    forall lock ensures lock in c'.locks <==> Holds(c', lock) {
      assert lock in c.locks <==> Holds(c, lock);
    }
  }

  lemma LockedSoFar(order: seq<Account>, next: nat)
    requires next < |order|
    ensures forall a :: a in order[..next + 1] <==> a in order[..next] || a == order[next]
    ensures order[..|order|] == order
  {
    assert order[..next + 1] == order[..next] + [order[next]];
  }

  lemma RowLockLocks(s: State, id: CallId, c: Call)
    requires LocksInv(c) && c.phase.AtRowLock? && TryRowLock(s, id, c).Local?
    requires c.writes == ZeroRows(s.db.balances, Accounts(c.request, c.quote))
    ensures LocksInv(TryRowLock(s, id, c).call)
  {
    var c': Call := TryRowLock(s, id, c).call;
    var order, next := LockOrder(c.request, c.quote), c.phase.next;
    LockedSoFar(order, next);
    assert Holds(c, RowLock(order[next])) <==> RowLock(order[next]) in c.locks;
    forall lock ensures lock in c'.locks <==> Holds(c', lock) {
      assert lock in c.locks <==> Holds(c, lock);
    }
  }

  lemma LedgerLocks(s: State, id: CallId)
    requires id in s.calls && LocksInv(s.calls[id]) && Try(s, id).Local?
    requires 5 <= Position(s.calls[id].phase) <= 8
    ensures LocksInv(Try(s, id).call)
  {
    if Position(s.calls[id].phase) <= 6 { DebitLocks(s, id, s.calls[id]); } else { CreditLocks(s, id, s.calls[id]); }
  }

  lemma DebitLocks(s: State, id: CallId, c: Call)
    requires LocksInv(c) && (c.phase.AtDebit? || c.phase.AtDebitEntry?) && TryDebit(s, id, c).Local?
    ensures LocksInv(TryDebit(s, id, c).call)
  {
    var c': Call := TryDebit(s, id, c).call;
    forall lock ensures lock in c'.locks <==> Holds(c', lock) {
      assert lock in c.locks <==> Holds(c, lock);
    }
  }

  lemma CreditLocks(s: State, id: CallId, c: Call)
    requires LocksInv(c) && (c.phase.AtCredit? || c.phase.AtCreditEntry?) && TryCredit(s, id, c).Local?
    ensures LocksInv(TryCredit(s, id, c).call)
  {
    var c': Call := TryCredit(s, id, c).call;
    forall lock ensures lock in c'.locks <==> Holds(c', lock) {
      assert lock in c.locks <==> Holds(c, lock);
    }
  }

  lemma TradeLocks(s: State, id: CallId, c: Call)
    requires LocksInv(c) && 9 <= Position(c.phase) <= 11 && TryTrade(s, id, c).Local?
    ensures LocksInv(TryTrade(s, id, c).call)
  {
    var c': Call := TryTrade(s, id, c).call;
    forall lock ensures lock in c'.locks <==> Holds(c', lock) {
      assert lock in c.locks <==> Holds(c, lock);
    }
  }

  lemma QuoteLocksStep(s: State, id: CallId)
    requires id in s.calls && CallInv(s.db, id, s.calls[id]) && Try(s, id).Local?
    requires Position(s.calls[id].phase) <= 2 || Position(s.calls[id].phase) >= 13
    ensures LocksInv(Try(s, id).call)
  {
    var c := s.calls[id];
    var c': Call := Try(s, id).call;
    forall lock ensures lock in c'.locks <==> Holds(c', lock) {
      assert lock in c.locks <==> Holds(c, lock);
    }
  }

  lemma NextZeroRow(balances: map<Account, int>, accounts: seq<Account>, next: nat)
    requires next < |accounts|
    ensures ZeroRows(balances, accounts[..next + 1]) ==
            if accounts[next] in balances then ZeroRows(balances, accounts[..next])
            else ZeroRows(balances, accounts[..next])[accounts[next] := 0]
    ensures accounts[..|accounts|] == accounts
  {
    assert accounts[..next + 1] == accounts[..next] + [accounts[next]];
  }

  lemma RowInsertMoney(s: State, id: CallId, c: Call)
    requires MoneyInv(s.db.balances, id, c) && c.phase.AtRowInsert? && TryRowInsert(s, id, c).Local?
    ensures MoneyInv(s.db.balances, id, TryRowInsert(s, id, c).call)
  {
    NextZeroRow(s.db.balances, Accounts(c.request, c.quote), c.phase.next);
    assert c.writes == ZeroRows(s.db.balances, Accounts(c.request, c.quote)[..c.phase.next]);
  }

  lemma DebitMoney(s: State, id: CallId)
    requires id in s.calls && MoneyInv(s.db.balances, id, s.calls[id]) && Try(s, id).Local?
    requires s.calls[id].phase.AtDebit? || s.calls[id].phase.AtDebitEntry?
    ensures MoneyInv(s.db.balances, id, Try(s, id).call)
  {
  }

  lemma CreditMoney(s: State, id: CallId)
    requires id in s.calls && MoneyInv(s.db.balances, id, s.calls[id]) && Try(s, id).Local?
    requires s.calls[id].phase.AtCredit? || s.calls[id].phase.AtCreditEntry?
    ensures MoneyInv(s.db.balances, id, Try(s, id).call)
  {
  }

  lemma QuoteMoney(s: State, id: CallId)
    requires id in s.calls && MoneyInv(s.db.balances, id, s.calls[id]) && Try(s, id).Local?
    requires Position(s.calls[id].phase) <= 2 || Position(s.calls[id].phase) >= 13
    ensures MoneyInv(s.db.balances, id, Try(s, id).call)
  {
    if 1 <= Position(s.calls[id].phase) <= 2 { QuoteRowMoney(s, id, s.calls[id]); }
  }

  lemma QuoteRowMoney(s: State, id: CallId, c: Call)
    requires MoneyInv(s.db.balances, id, c) && 1 <= Position(c.phase) <= 2 && TryQuote(s, id, c).Local?
    ensures MoneyInv(s.db.balances, id, TryQuote(s, id, c).call)
  {
  }

  lemma RowLockMoney(s: State, id: CallId, c: Call)
    requires MoneyInv(s.db.balances, id, c) && c.phase.AtRowLock? && TryRowLock(s, id, c).Local?
    ensures MoneyInv(s.db.balances, id, TryRowLock(s, id, c).call)
  {
  }

  lemma TradeMoney(s: State, id: CallId, c: Call)
    requires MoneyInv(s.db.balances, id, c) && 9 <= Position(c.phase) <= 11 && TryTrade(s, id, c).Local?
    ensures MoneyInv(s.db.balances, id, TryTrade(s, id, c).call)
  {
    SameMoney(s.db.balances, id, c, TryTrade(s, id, c).call);
  }

  lemma SameMoney(balances: map<Account, int>, id: CallId, c: Call, c': Call)
    requires MoneyInv(balances, id, c) && 9 <= Position(c.phase) <= 11
    requires (c' == NewCall(c.request, c'.phase) && !HasQuote(c'.phase))
          || (9 <= Position(c'.phase) <= 12 && (c'.request, c'.quote, c'.writes, c'.entries) == (c.request, c.quote, c.writes, c.entries))
    ensures MoneyInv(balances, id, c')
  {
  }

  /** The quote lock is held and the quote is ACTIVE, so no trade on it is committed. */
  lemma QuoteIndexIsFree(db: Database, id: CallId, c: Call)
    requires QuotesMatchTrades(db) && FactsInv(db, id, c) && c.request.TradeRequest? && AfterCheck(c.phase)
    ensures !QuoteUsed(db.trades, c.request.quoteId)
  {
    assert db.quotes[c.request.quoteId].status == ACTIVE;
  }

  lemma TradeFacts(s: State, id: CallId)
    requires QuotesMatchTrades(s.db) && id in s.calls && FactsInv(s.db, id, s.calls[id]) && Try(s, id).Local?
    requires 9 <= Position(s.calls[id].phase) <= 11
    ensures FactsInv(s.db, id, Try(s, id).call)
  {
    var c := s.calls[id];
    QuoteIndexIsFree(s.db, id, c);
    if c.phase.AtKeyIndex? && FindByIdempotencyKey(s.db.trades, c.request.clientId, c.request.key).Some? {
      var t := FindByIdempotencyKey(s.db.trades, c.request.clientId, c.request.key).value;
      var i :| 0 <= i < |s.db.trades| && s.db.trades[i] == t;
      assert t.quoteId != c.request.quoteId;
    }
  }

  lemma QuoteFacts(s: State, id: CallId)
    requires id in s.calls && FactsInv(s.db, id, s.calls[id]) && Try(s, id).Local?
    requires Position(s.calls[id].phase) <= 2 || Position(s.calls[id].phase) >= 13
    ensures FactsInv(s.db, id, Try(s, id).call)
  {
  }

  lemma RowFacts(s: State, id: CallId)
    requires id in s.calls && FactsInv(s.db, id, s.calls[id]) && Try(s, id).Local?
    requires 3 <= Position(s.calls[id].phase) <= 8
    ensures FactsInv(s.db, id, Try(s, id).call)
  {
    if Position(s.calls[id].phase) <= 4 { InsertAndLockFacts(s, id); } else { MovementFacts(s, id); }
  }

  lemma MovementFacts(s: State, id: CallId)
    requires id in s.calls && FactsInv(s.db, id, s.calls[id]) && Try(s, id).Local?
    requires 5 <= Position(s.calls[id].phase) <= 8
    ensures FactsInv(s.db, id, Try(s, id).call)
  {
  }

  lemma InsertAndLockFacts(s: State, id: CallId)
    requires id in s.calls && FactsInv(s.db, id, s.calls[id]) && Try(s, id).Local?
    requires 3 <= Position(s.calls[id].phase) <= 4
    ensures FactsInv(s.db, id, Try(s, id).call)
  {
  }

  /** Every statement that stays inside the transaction keeps what is known of its call. */
  lemma OwnStep(s: State, id: CallId)
    requires QuotesMatchTrades(s.db) && id in s.calls && CallInv(s.db, id, s.calls[id]) && Try(s, id).Local?
    ensures CallInv(s.db, id, Try(s, id).call)
  {
    var p := s.calls[id].phase;
    if p.AtRowInsert? { RowInsertLocks(s, id, s.calls[id]); }
    else if p.AtRowLock? { RowLockLocks(s, id, s.calls[id]); }
    else if p.AtDebit? || p.AtDebitEntry? || p.AtCredit? || p.AtCreditEntry? { LedgerLocks(s, id); }
    else if 9 <= Position(p) <= 11 { TradeLocks(s, id, s.calls[id]); }
    else { QuoteLocksStep(s, id); }
    if p.AtRowInsert? { RowInsertMoney(s, id, s.calls[id]); }
    else if p.AtRowLock? { RowLockMoney(s, id, s.calls[id]); }
    else if p.AtDebit? || p.AtDebitEntry? { DebitMoney(s, id); }
    else if p.AtCredit? || p.AtCreditEntry? { CreditMoney(s, id); }
    else if 9 <= Position(p) <= 11 { TradeMoney(s, id, s.calls[id]); }
    else { QuoteMoney(s, id); }
    if 9 <= Position(p) <= 11 { TradeFacts(s, id); }
    else if 3 <= Position(p) <= 8 { RowFacts(s, id); }
    else { QuoteFacts(s, id); }
  }
}
