/**
 * Serializability: whatever the interleaving, the committed rows are those of
 * the committed calls run one at a time in commit order, and every refusal is
 * the one a call running alone would have met.
 */
module ProtocolRuns {
  import opened Schema
  import opened Settlement
  import opened LedgerInvariant
  import opened Protocol
  import opened ProtocolInvariant
  import opened Strings

  // ---- Another transaction's commit does not disturb a call ----

  /** `after` differs from `db` only outside what the call holds. */
  ghost predicate Undisturbed(db: Database, after: Database, id: CallId, c: Call) {
    && (forall a :: a in db.balances ==> a in after.balances)
    && (forall a :: Holds(c, RowLock(a)) ==>
          (a in db.balances <==> a in after.balances) && Available(db.balances, a) == Available(after.balances, a))
    && (forall q :: q in db.quotes ==> q in after.quotes)
    && (forall q :: q in db.quotes && Holds(c, QuoteLock(q)) ==> after.quotes[q] == db.quotes[q])
    && (forall q :: q in db.quotes && db.quotes[q].status == EXECUTED ==> after.quotes[q].status == EXECUTED)
    && (forall t :: t in db.trades ==> t in after.trades)
    && (forall t :: t in after.trades ==> t in db.trades || !Holds(c, KeyIndex(t.clientId, t.idempotencyKey)))
    && (IdUsed(after, id) ==> IdUsed(db, id))
  }

  lemma SameZeroRows(balances: map<Account, int>, after: map<Account, int>, accounts: seq<Account>)
    requires forall a :: a in accounts ==> (a in balances <==> a in after)
    ensures ZeroRows(balances, accounts) == ZeroRows(after, accounts)
  {
  }

  predicate SameBalance(balances: map<Account, int>, after: map<Account, int>, a: Account) {
    (a in balances <==> a in after) && Available(balances, a) == Available(after, a)
  }

  lemma SameSeen(balances: map<Account, int>, after: map<Account, int>, writes: map<Account, int>, a: Account)
    requires SameBalance(balances, after, a)
    ensures Seen(balances, writes, a) == Seen(after, writes, a)
  {
  }

  lemma SameWrites(balances: map<Account, int>, after: map<Account, int>, r: Request, q: Option<Quote>)
    requires LegsKnown(r, q) && forall a :: a in Accounts(r, q) ==> SameBalance(balances, after, a)
    ensures ZeroRows(balances, Accounts(r, q)) == ZeroRows(after, Accounts(r, q))
    ensures DebitWrites(balances, r, q) == DebitWrites(after, r, q) && CreditWrites(balances, r, q) == CreditWrites(after, r, q)
    ensures DebitCovered(balances, r, q) == DebitCovered(after, r, q) && CreditFits(balances, r, q) == CreditFits(after, r, q)
  {
    var zero, credited := ZeroRows(balances, Accounts(r, q)), Credited(r, q).account;
    assert forall a :: a in Accounts(r, q) ==> SameBalance(balances, after, a) && (a in balances <==> a in after);
    SameZeroRows(balances, after, Accounts(r, q));
    if r.TradeRequest? {
      assert DebitLeg(q.value).account in Accounts(r, q);
      SameSeen(balances, after, zero, DebitLeg(q.value).account);
    }
    assert credited in Accounts(r, q);
    SameSeen(balances, after, DebitWrites(balances, r, q), credited);
  }

  lemma SameAccountsSameMoney(balances: map<Account, int>, after: map<Account, int>, id: CallId, c: Call)
    requires MoneyInv(balances, id, c) && RowsLocked(c.phase)
    requires forall a :: a in Accounts(c.request, c.quote) ==> SameBalance(balances, after, a)
    ensures MoneyInv(after, id, c)
  {
    SameWrites(balances, after, c.request, c.quote);
  }

  lemma LockedMoneyUndisturbed(db: Database, after: Database, id: CallId, c: Call)
    requires Undisturbed(db, after, id, c) && MoneyInv(db.balances, id, c) && RowsLocked(c.phase)
    ensures MoneyInv(after.balances, id, c)
  {
    forall a | a in Accounts(c.request, c.quote) ensures SameBalance(db.balances, after.balances, a) {
      assert Holds(c, RowLock(a));
    }
    SameAccountsSameMoney(db.balances, after.balances, id, c);
  }

  lemma MoneyUndisturbed(db: Database, after: Database, id: CallId, c: Call)
    requires Undisturbed(db, after, id, c) && MoneyInv(db.balances, id, c)
    ensures MoneyInv(after.balances, id, c)
  {
    if RowsLocked(c.phase) {
      LockedMoneyUndisturbed(db, after, id, c);
    } else if c.phase.AtRowInsert? || c.phase.AtRowLock? {
      var accounts := if c.phase.AtRowInsert? then Accounts(c.request, c.quote)[..c.phase.next] else Accounts(c.request, c.quote);
      forall a | a in accounts ensures a in db.balances <==> a in after.balances {
        if a !in db.balances {
          assert a in c.writes && Holds(c, RowLock(a));
        }
      }
      SameZeroRows(db.balances, after.balances, accounts);
    }
  }

  lemma FactsUndisturbed(db: Database, after: Database, id: CallId, c: Call)
    requires Undisturbed(db, after, id, c) && FactsInv(db, id, c)
    ensures FactsInv(after, id, c)
  {
    if c.request.TradeRequest? {
      if HasQuote(c.phase) {
        assert Holds(c, QuoteLock(c.request.quoteId));
      }
      if 11 <= Position(c.phase) <= 12 {
        assert Holds(c, KeyIndex(c.request.clientId, c.request.key));
      }
      if KeySettledElsewhere(db.trades, c.request) {
        var t :| t in db.trades && HasKey(t, c.request.clientId, c.request.key) && t.quoteId != c.request.quoteId;
        assert t in after.trades;
      }
    }
  }

  // ---- Committing ----

  lemma DebitIsMovement(db: Database, id: CallId, r: Request, q: Quote)
    requires r.TradeRequest? && DebitCovered(db.balances, r, Some(q))
    ensures Debit(EnsureRows(db, TouchedAccounts(q)), DebitLeg(q), TradeRef(id))
         == Some(db.(balances := db.balances + DebitWrites(db.balances, r, Some(q)),
                     ledger := db.ledger + DebitEntries(id, r, Some(q))))
  {
    var debited := Debit(EnsureRows(db, TouchedAccounts(q)), DebitLeg(q), TradeRef(id));
    assert debited.value.balances == db.balances + DebitWrites(db.balances, r, Some(q));
  }

  lemma CreditIsMovement(db: Database, id: CallId, r: Request, q: Quote)
    requires r.TradeRequest? && CreditFits(db.balances, r, Some(q))
    ensures Credit(db.(balances := db.balances + DebitWrites(db.balances, r, Some(q)),
                       ledger := db.ledger + DebitEntries(id, r, Some(q))), CreditLeg(q), TradeRef(id))
         == Some(db.(balances := db.balances + CreditWrites(db.balances, r, Some(q)),
                     ledger := db.ledger + AllEntries(id, r, Some(q))))
  {
    var debited := db.balances + DebitWrites(db.balances, r, Some(q));
    assert debited[CreditLeg(q).account := Available(debited, CreditLeg(q).account) + CreditLeg(q).amountMinor]
        == db.balances + CreditWrites(db.balances, r, Some(q));
    assert db.ledger + DebitEntries(id, r, Some(q)) + [Entry(CreditLeg(q).account, CreditLeg(q).amountMinor, TradeRef(id))]
        == db.ledger + AllEntries(id, r, Some(q));
  }

  /** The private writes of a trade past its credit are the two ledger movements. */
  lemma WritesAreMovements(db: Database, id: CallId, c: Call)
    requires MoneyInv(db.balances, id, c) && 9 <= Position(c.phase) <= 12 && c.request.TradeRequest?
    ensures var q := c.quote.value;
      var debited := Debit(EnsureRows(db, TouchedAccounts(q)), DebitLeg(q), TradeRef(id));
      && debited.Some?
      && Credit(debited.value, CreditLeg(q), TradeRef(id))
           == Some(db.(balances := db.balances + c.writes, ledger := db.ledger + c.entries))
  {
    GuardsPassed(db.balances, id, c);
    DebitIsMovement(db, id, c.request, c.quote.value);
    CreditIsMovement(db, id, c.request, c.quote.value);
  }

  lemma GuardsPassed(balances: map<Account, int>, id: CallId, c: Call)
    requires MoneyInv(balances, id, c) && 9 <= Position(c.phase) <= 12
    ensures DebitCovered(balances, c.request, c.quote) && CreditFits(balances, c.request, c.quote)
    ensures c.writes == CreditWrites(balances, c.request, c.quote) && c.entries == AllEntries(id, c.request, c.quote)
  {
  }

  lemma PublishedTrade(db: Database, id: CallId, c: Call)
    requires QuotesMatchTrades(db) && CallInv(db, id, c) && c.phase.AtCommit? && c.request.TradeRequest?
    ensures ExecuteTrade(db, c.request.clientId, c.request.quoteId, c.request.key, c.checkedAt, id)
         == Committed(Published(db, c))
  {
    QuoteIndexIsFree(db, id, c);
    WritesAreMovements(db, id, c);
  }

  lemma PublishedDeposit(db: Database, id: CallId, c: Call)
    requires CallInv(db, id, c) && c.phase.AtCommit? && c.request.DepositRequest?
    ensures ExecuteDeposit(db, c.request.leg, id) == Committed(Published(db, c))
  {
    var rows := EnsureRows(db, [c.request.leg.account]);
    assert Credit(rows, c.request.leg, DepositRef(id)).value.balances == db.balances + c.writes;
  }

  /** A commit publishes what the whole call, run at this instant and alone, would have done. */
  lemma CommitIsAtomic(db: Database, id: CallId, c: Call)
    requires QuotesMatchTrades(db) && CallInv(db, id, c) && c.phase.AtCommit?
    ensures Perform(db, OperationOf(c, id)) == Some(Published(db, c))
  {
    if c.request.TradeRequest? { PublishedTrade(db, id, c); } else { PublishedDeposit(db, id, c); }
  }

  lemma WrittenRowsAreHeld(db: Database, id: CallId, c: Call)
    requires MoneyInv(db.balances, id, c) && c.phase.AtCommit?
    ensures forall a :: a in c.writes ==> Holds(c, RowLock(a))
    ensures forall e :: e in c.entries ==> e.ref == TradeRef(id) || e.ref == DepositRef(id)
  {
  }

  lemma CommitDisturbsNobody(db: Database, id: CallId, c: Call, other: CallId, d: Call)
    requires CallInv(db, id, c) && c.phase.AtCommit? && id != other
    requires forall lock :: Holds(c, lock) ==> !Holds(d, lock)
    ensures Undisturbed(db, Published(db, c), other, d)
  {
    WrittenRowsAreHeld(db, id, c);
    if c.request.TradeRequest? {
      assert Holds(c, QuoteLock(c.request.quoteId));
      assert Holds(c, KeyIndex(c.request.clientId, c.request.key));
    }
    assert IdUsed(Published(db, c), other) ==> IdUsed(db, other);
  }

  lemma AnsweredKeeps(db: Database, id: CallId, c: Call, answer: Answer)
    requires c.request.DepositRequest? ==> c.request.leg.amountMinor > 0
    requires AnswerHolds(db, id, c.request, answer)
    ensures CallInv(db, id, Ended(c, answer))
  {
  }

  // ---- One step ----

  lemma OthersUndisturbed(s: State, after: Database, id: CallId)
    requires EveryCall(s.db, s.calls)
    requires forall u :: u in s.calls && u != id ==> Undisturbed(s.db, after, u, s.calls[u])
    ensures forall u :: u in s.calls && u != id ==> CallInv(after, u, s.calls[u])
  {
    forall u | u in s.calls && u != id ensures CallInv(after, u, s.calls[u]) {
      assert CallInv(s.db, u, s.calls[u]);
      MoneyUndisturbed(s.db, after, u, s.calls[u]);
      FactsUndisturbed(s.db, after, u, s.calls[u]);
    }
  }

  /** A statement takes only locks nobody else has. */
  lemma LocksTaken(s: State, id: CallId)
    requires id in s.calls && Try(s, id).Local?
    ensures forall lock :: lock in Try(s, id).call.locks ==> lock in s.calls[id].locks || !HeldByOther(s, id, lock)
  {
  }

  lemma ExclusiveAfter(s: State, id: CallId, c': Call)
    requires Exclusive(s.calls)
    requires forall lock :: lock in c'.locks ==> (id in s.calls && lock in s.calls[id].locks) || !HeldByOther(s, id, lock)
    ensures Exclusive(s.calls[id := c'])
  {
  }

  lemma LocalStep(s: State, id: CallId)
    requires Inv(s) && id in s.calls && Try(s, id).Local?
    ensures Inv(AfterLocal(s, id, Try(s, id).call))
  {
    OwnStep(s, id);
    LocksTaken(s, id);
    ExclusiveAfter(s, id, Try(s, id).call);
  }

  ghost predicate CommitAnswer(c: Call, answer: Answer) {
    answer == ServerError || answer == if c.trade.Some? then Created(c.trade.value) else Deposited
  }

  lemma PublishedIsConsistent(db: Database, id: CallId, c: Call)
    requires Consistent(db) && CallInv(db, id, c) && c.phase.AtCommit?
    ensures Consistent(Published(db, c))
  {
    CommitIsAtomic(db, id, c);
    PerformStep(db, OperationOf(c, id));
  }

  lemma CommitSparesOthers(s: State, id: CallId)
    requires EveryCall(s.db, s.calls) && Exclusive(s.calls) && id in s.calls && s.calls[id].phase.AtCommit?
    ensures forall u :: u in s.calls && u != id ==> CallInv(Published(s.db, s.calls[id]), u, s.calls[u])
  {
    forall u | u in s.calls && u != id ensures Undisturbed(s.db, Published(s.db, s.calls[id]), u, s.calls[u]) {
      assert CallInv(s.db, u, s.calls[u]) && CallInv(s.db, id, s.calls[id]);
      CommitDisturbsNobody(s.db, id, s.calls[id], u, s.calls[u]);
    }
    OthersUndisturbed(s, Published(s.db, s.calls[id]), id);
  }

  lemma CommitKeepsCalls(s: State, id: CallId, answer: Answer)
    requires EveryCall(s.db, s.calls) && Exclusive(s.calls)
    requires id in s.calls && s.calls[id].phase.AtCommit? && CommitAnswer(s.calls[id], answer)
    ensures EveryCall(Published(s.db, s.calls[id]), s.calls[id := Ended(s.calls[id], answer)])
  {
    assert CallInv(s.db, id, s.calls[id]);
    CommitSparesOthers(s, id);
    CommitAnswerHolds(s.db, id, s.calls[id], answer);
    AnsweredKeeps(Published(s.db, s.calls[id]), id, s.calls[id], answer);
  }

  lemma CommitAnswerHolds(db: Database, id: CallId, c: Call, answer: Answer)
    requires CallInv(db, id, c) && c.phase.AtCommit? && CommitAnswer(c, answer)
    ensures AnswerHolds(Published(db, c), id, c.request, answer)
  {
  }

  lemma CommitStep(s: State, id: CallId, answer: Answer)
    requires Inv(s) && id in s.calls && s.calls[id].phase.AtCommit? && CommitAnswer(s.calls[id], answer)
    ensures Inv(AfterCommit(s, id, answer))
  {
    assert CallInv(s.db, id, s.calls[id]);
    PublishedIsConsistent(s.db, id, s.calls[id]);
    CommitKeepsCalls(s, id, answer);
    ExclusiveAfter(s, id, Ended(s.calls[id], answer));
  }

  lemma AddQuoteStep(s: State, quoteId: QuoteId, quote: Quote)
    requires Inv(s) && quoteId !in s.db.quotes && StorableQuote(quote)
    ensures Inv(s.(db := s.db.(quotes := s.db.quotes[quoteId := quote]), history := s.history + [QuoteOp(quoteId, quote)]))
  {
    QuoteStep(s.db, quoteId, quote);
    var after := s.db.(quotes := s.db.quotes[quoteId := quote]);
    forall u | u in s.calls ensures CallInv(after, u, s.calls[u]) {
      assert CallInv(s.db, u, s.calls[u]);
      MoneyUndisturbed(s.db, after, u, s.calls[u]);
      FactsUndisturbed(s.db, after, u, s.calls[u]);
    }
  }

  lemma BeginStep(s: State, id: CallId, r: Request)
    requires Inv(s) && id !in s.calls && !IdUsed(s.db, id) && (r.DepositRequest? ==> r.leg.amountMinor > 0)
    ensures Inv(s.(calls := s.calls[id := NewCall(r, if r.TradeRequest? then AtLookup else AtRowInsert(0))]))
  {
    BeginKeeps(s.db, id, r);
    ExclusiveAfter(s, id, NewCall(r, if r.TradeRequest? then AtLookup else AtRowInsert(0)));
  }

  lemma DropStep(s: State, id: CallId)
    requires Inv(s) && id in s.calls
    ensures Inv(s.(calls := s.calls[id := Ended(s.calls[id], ServerError)]))
  {
    assert CallInv(s.db, id, s.calls[id]);
    AnsweredKeeps(s.db, id, s.calls[id], ServerError);
    ExclusiveAfter(s, id, Ended(s.calls[id], ServerError));
  }

  lemma AdvanceEffect(s: State, id: CallId)
    requires Apply(s, Advance(id)).Some?
    ensures Try(s, id).Local? || Try(s, id).Publish?
    ensures Try(s, id).Local? ==> Apply(s, Advance(id)) == Some(AfterLocal(s, id, Try(s, id).call))
    ensures Try(s, id).Publish? ==>
      && s.calls[id].phase.AtCommit? && CommitAnswer(s.calls[id], Try(s, id).answer)
      && Apply(s, Advance(id)) == Some(AfterCommit(s, id, Try(s, id).answer))
  {
  }

  lemma AdvanceStep(s: State, id: CallId)
    requires Inv(s) && Apply(s, Advance(id)).Some?
    ensures Inv(Apply(s, Advance(id)).value)
  {
    AdvanceEffect(s, id);
    if Try(s, id).Local? { LocalStep(s, id); } else { CommitStep(s, id, Try(s, id).answer); }
  }

  /** Every action keeps the invariant. */
  lemma ApplyKeepsInv(s: State, action: Action)
    requires Inv(s) && Apply(s, action).Some?
    ensures Inv(Apply(s, action).value)
  {
    match action
    case BeginTrade(id, clientId, quoteId, rawKey) => BeginStep(s, id, TradeRequest(clientId, quoteId, Trim(rawKey)));
    case BeginDeposit(id, leg) => BeginStep(s, id, DepositRequest(leg));
    case AddQuote(quoteId, quote) => AddQuoteStep(s, quoteId, quote);
    case Advance(id) => AdvanceStep(s, id);
    case CommitUnheard(id) => CommitStep(s, id, ServerError);
    case Drop(id) => DropStep(s, id);
    case Tick(now) =>
  }

  // ---- Refusals ----

  /** The time a trade's expiry is judged by: fixed once the quote has been checked. */
  function JudgedAt(s: State, c: Call): int {
    if AfterCheck(c.phase) then c.checkedAt else s.clock
  }

  lemma DebitRefusal(s: State, id: CallId, c: Call)
    requires CallInv(s.db, id, c) && c.phase.AtDebit?
    requires TryDebit(s, id, c).call.phase == Answered(Refused(InsufficientBalance))
    ensures ExecuteTrade(s.db, c.request.clientId, c.request.quoteId, c.request.key, c.checkedAt, id)
         == Aborted(InsufficientBalance)
  {
  }

  lemma CreditRefusal(s: State, id: CallId, c: Call)
    requires CallInv(s.db, id, c) && c.phase.AtCredit? && c.request.TradeRequest?
    requires TryCredit(s, id, c).call.phase == Answered(Refused(OutOfRange))
    ensures ExecuteTrade(s.db, c.request.clientId, c.request.quoteId, c.request.key, c.checkedAt, id)
         == Aborted(OutOfRange)
  {
    DebitIsMovement(s.db, id, c.request, c.quote.value);
  }

  lemma KeyRefusal(db: Database, id: CallId, c: Call)
    requires QuotesMatchTrades(db) && CallInv(db, id, c) && c.phase.AtKeyIndex?
    requires FindByIdempotencyKey(db.trades, c.request.clientId, c.request.key).Some?
    ensures ExecuteTrade(db, c.request.clientId, c.request.quoteId, c.request.key, c.checkedAt, id)
         == Aborted(KeyTaken)
  {
    QuoteIndexIsFree(db, id, c);
    WritesAreMovements(db, id, c);
  }

  /** What the call would be told if all of it ran now, alone, on the committed rows. */
  function Alone(s: State, id: CallId, c: Call): Result
    requires c.request.TradeRequest?
  {
    ExecuteTrade(s.db, c.request.clientId, c.request.quoteId, c.request.key, JudgedAt(s, c), id)
  }

  predicate ToldAsAlone(s: State, id: CallId, c: Call, c': Call)
    requires c.request.TradeRequest?
  {
    && (Finished(c') && c'.phase.answer.Refused? ==> Alone(s, id, c) == Aborted(c'.phase.answer.why))
    && (c'.phase.AtRaceLookup? ==> Alone(s, id, c) == Aborted(KeyTaken))
  }

  lemma QuoteRefusal(s: State, id: CallId, c: Call)
    requires FactsInv(s.db, id, c) && (c.phase.AtQuoteLock? || c.phase.AtQuoteCheck?) && TryQuote(s, id, c).Local?
    ensures ToldAsAlone(s, id, c, TryQuote(s, id, c).call)
  {
  }

  /**
   * A trade that is refused, or that loses the race for its key, is told at that
   * very statement what it would be told if it ran alone on the committed rows.
   */
  lemma RefusalIsAtomic(s: State, id: CallId)
    requires Reachable(s) && id in s.calls && s.calls[id].request.TradeRequest? && Try(s, id).Local?
    requires !Finished(s.calls[id])
    ensures ToldAsAlone(s, id, s.calls[id], Try(s, id).call)
  {
    ReachableKeepsInv(s);
    assert CallInv(s.db, id, s.calls[id]);
    StatementRefusal(s, id, s.calls[id]);
  }

  lemma StatementRefusal(s: State, id: CallId, c: Call)
    requires QuotesMatchTrades(s.db) && CallInv(s.db, id, c) && c.request.TradeRequest? && !Finished(c)
    requires id in s.calls && s.calls[id] == c && Try(s, id).Local?
    ensures ToldAsAlone(s, id, c, Try(s, id).call)
  {
    match c.phase
    case AtQuoteLock | AtQuoteCheck => QuoteRefusal(s, id, c);
    case AtTradeInsert | AtKeyIndex => TradeRefusal(s, id, c);
    case AtDebit | AtCredit => MoneyRefusal(s, id, c);
    case _ =>
  }

  lemma MoneyRefusal(s: State, id: CallId, c: Call)
    requires CallInv(s.db, id, c) && c.request.TradeRequest? && (c.phase.AtDebit? || c.phase.AtCredit?)
    requires id in s.calls && s.calls[id] == c
    ensures ToldAsAlone(s, id, c, Try(s, id).call)
  {
    if c.phase.AtDebit? {
      if Finished(TryDebit(s, id, c).call) { DebitRefusal(s, id, c); }
    } else {
      if Finished(TryCredit(s, id, c).call) { CreditRefusal(s, id, c); }
    }
  }

  lemma TradeRefusal(s: State, id: CallId, c: Call)
    requires QuotesMatchTrades(s.db) && CallInv(s.db, id, c) && (c.phase.AtTradeInsert? || c.phase.AtKeyIndex?)
    requires id in s.calls && s.calls[id] == c && Try(s, id).Local?
    ensures ToldAsAlone(s, id, c, Try(s, id).call)
  {
    QuoteIndexIsFree(s.db, id, c);
    if TryTrade(s, id, c).call.phase.AtRaceLookup? { KeyRefusal(s.db, id, c); }
  }

  lemma DepositRefusalIsAtomic(s: State, id: CallId)
    requires Reachable(s) && id in s.calls && s.calls[id].request.DepositRequest? && Try(s, id).Local?
    requires !Finished(s.calls[id])
    requires Finished(Try(s, id).call) && Try(s, id).call.phase.answer.Refused?
    ensures ExecuteDeposit(s.db, s.calls[id].request.leg, id) == Aborted(Try(s, id).call.phase.answer.why)
  {
    ReachableKeepsInv(s);
    assert CallInv(s.db, id, s.calls[id]);
  }

  // ---- Whole runs ----

  lemma {:induction false} RunKeepsInv(start: State, actions: seq<Action>)
    requires Inv(start) && Run(start, actions).Some?
    ensures Inv(Run(start, actions).value)
  {
    if actions != [] {
      RunKeepsInv(start, actions[..|actions| - 1]);
      ApplyKeepsInv(Run(start, actions[..|actions| - 1]).value, actions[|actions| - 1]);
    }
  }

  lemma StartIsFine(db: Database, now: int, errorsWrapped: bool)
    requires Consistent(db)
    ensures Inv(Start(db, now, errorsWrapped))
  {
  }

  lemma ReplayAppend(db: Database, history: seq<Operation>, op: Operation)
    requires Replay(db, history).Some?
    ensures Replay(db, history + [op]) == Perform(Replay(db, history).value, op)
  {
    assert (history + [op])[..|history|] == history;
  }

  ghost predicate CommitsAtMostOne(s: State, s': State) {
    || (s'.history == s.history && s'.db == s.db)
    || (exists op :: s'.history == s.history + [op] && Perform(s.db, op) == Some(s'.db))
  }

  lemma CommitIsOneOperation(s: State, id: CallId, answer: Answer)
    requires QuotesMatchTrades(s.db) && EveryCall(s.db, s.calls) && id in s.calls && s.calls[id].phase.AtCommit?
    ensures CommitsAtMostOne(s, AfterCommit(s, id, answer))
  {
    assert CallInv(s.db, id, s.calls[id]);
    CommitIsAtomic(s.db, id, s.calls[id]);
    assert AfterCommit(s, id, answer).history == s.history + [OperationOf(s.calls[id], id)];
  }

  /** An action either commits nothing, or commits one operation atomically. */
  lemma ApplyIsAtomic(s: State, action: Action)
    requires Inv(s) && Apply(s, action).Some?
    ensures CommitsAtMostOne(s, Apply(s, action).value)
  {
    if action.AddQuote? {
      AddingIsOneOperation(s, action.quoteId, action.quote);
    } else if action.CommitUnheard? {
      CommitIsOneOperation(s, action.id, ServerError);
    } else if action.Advance? {
      AdvancingIsAtomic(s, action.id);
    }
  }

  lemma AdvancingIsAtomic(s: State, id: CallId)
    requires QuotesMatchTrades(s.db) && EveryCall(s.db, s.calls) && Apply(s, Advance(id)).Some?
    ensures CommitsAtMostOne(s, Apply(s, Advance(id)).value)
  {
    AdvanceEffect(s, id);
    if Try(s, id).Publish? {
      CommitIsOneOperation(s, id, Try(s, id).answer);
    }
  }

  lemma AddingIsOneOperation(s: State, quoteId: QuoteId, quote: Quote)
    requires Apply(s, AddQuote(quoteId, quote)).Some?
    ensures CommitsAtMostOne(s, Apply(s, AddQuote(quoteId, quote)).value)
  {
    assert Perform(s.db, QuoteOp(quoteId, quote)) == Some(Apply(s, AddQuote(quoteId, quote)).value.db);
  }

  /**
   * Serializability. Whatever the interleaving, replaying the committed
   * operations one at a time, in commit order, gives the committed database;
   * calls that ended any other way left no trace in it.
   */
  lemma {:induction false} Serializable(db: Database, now: int, errorsWrapped: bool, actions: seq<Action>)
    requires Consistent(db) && Run(Start(db, now, errorsWrapped), actions).Some?
    ensures var s := Run(Start(db, now, errorsWrapped), actions).value;
      Inv(s) && Replay(db, s.history) == Some(s.db)
  {
    var start := Start(db, now, errorsWrapped);
    StartIsFine(db, now, errorsWrapped);
    RunKeepsInv(start, actions);
    if actions != [] {
      var before := actions[..|actions| - 1];
      Serializable(db, now, errorsWrapped, before);
      var s := Run(start, before).value;
      ApplyIsAtomic(s, actions[|actions| - 1]);
      var s' := Run(start, actions).value;
      if s'.history != s.history {
        var op :| s'.history == s.history + [op] && Perform(s.db, op) == Some(s'.db);
        ReplayAppend(db, s.history, op);
      }
    }
  }

  /** Some run from a consistent database leads here. */
  ghost predicate Reachable(s: State) {
    exists db, now, errorsWrapped, actions ::
      Consistent(db) && Run(Start(db, now, errorsWrapped), actions) == Some(s)
  }

  lemma ReachableKeepsInv(s: State)
    requires Reachable(s)
    ensures Inv(s)
  {
    var db, now, errorsWrapped, actions :|
      Consistent(db) && Run(Start(db, now, errorsWrapped), actions) == Some(s);
    Serializable(db, now, errorsWrapped, actions);
  }
}
