/** What row locks buy: one owner per uncommitted row, and rows that stand still while they are held. */
module LockDiscipline {
  import opened Schema
  import opened Settlement
  import opened LedgerInvariant
  import opened Protocol
  import opened ProtocolInvariant
  import opened ProtocolRuns

  // ---- One owner ----

  /** The call has an uncommitted change to the row behind the lock: a new balance, or a quote about to flip. */
  predicate Changes(c: Call, row: Lock) {
    match row
    case RowLock(a) => a in c.writes
    case QuoteLock(quoteId) => c.flipped && c.request.TradeRequest? && c.request.quoteId == quoteId
    case _ => false
  }

  lemma ChangedRowsAreLocked(db: Database, id: CallId, c: Call, row: Lock)
    requires CallInv(db, id, c) && Changes(c, row)
    ensures row in c.locks && !Finished(c)
  {
    assert row in c.locks <==> Holds(c, row);
  }

  /**
   * A balance or quote row with uncommitted changes belongs to one live call, which
   * holds its lock; nobody else holds the lock or has changed the row.
   */
  lemma UncommittedRowsHaveOneOwner(s: State, u: CallId, v: CallId, row: Lock)
    requires Reachable(s) && u in s.calls && v in s.calls && Changes(s.calls[u], row)
    ensures !Finished(s.calls[u]) && row in s.calls[u].locks
    ensures u != v ==> row !in s.calls[v].locks && !Changes(s.calls[v], row)
  {
    ReachableKeepsInv(s);
    assert CallInv(s.db, u, s.calls[u]) && CallInv(s.db, v, s.calls[v]);
    ChangedRowsAreLocked(s.db, u, s.calls[u], row);
    if u != v && Changes(s.calls[v], row) {
      ChangedRowsAreLocked(s.db, v, s.calls[v], row);
    }
  }

  // ---- Standing still ----

  /** The committed row behind the lock is the same in both databases. */
  predicate SameRow(db: Database, after: Database, row: Lock) {
    match row
    case RowLock(a) => (a in db.balances <==> a in after.balances) && Available(after.balances, a) == Available(db.balances, a)
    case QuoteLock(quoteId) => quoteId in db.quotes && quoteId in after.quotes && after.quotes[quoteId] == db.quotes[quoteId]
    case _ => true
  }

  /** The call is over, or past its transaction: it never locks anything again. */
  predicate Gone(c: Call) {
    Position(c.phase) >= 13
  }

  /** The call still has the lock it had, over the row as it was; or it is gone. */
  ghost predicate StillHeld(db: Database, s: State, id: CallId, row: Lock) {
    && id in s.calls
    && (Gone(s.calls[id]) || (row in s.calls[id].locks && SameRow(db, s.db, row)))
  }

  predicate KeepsLocks(c: Call, c': Call) {
    Gone(c') || (c.locks <= c'.locks && !Gone(c))
  }

  lemma EarlyStatementKeepsLocks(s: State, id: CallId)
    requires id in s.calls && Try(s, id).Local? && Position(s.calls[id].phase) <= 4
    ensures KeepsLocks(s.calls[id], Try(s, id).call)
  {
  }

  lemma MovementKeepsLocks(s: State, id: CallId)
    requires id in s.calls && Try(s, id).Local? && 5 <= Position(s.calls[id].phase) <= 8
    ensures KeepsLocks(s.calls[id], Try(s, id).call)
  {
  }

  lemma StatementKeepsLocks(s: State, id: CallId)
    requires id in s.calls && Try(s, id).Local?
    ensures KeepsLocks(s.calls[id], Try(s, id).call)
  {
    if Position(s.calls[id].phase) <= 4 { EarlyStatementKeepsLocks(s, id); }
    else if Position(s.calls[id].phase) <= 8 { MovementKeepsLocks(s, id); }
    else { LateStatementKeepsLocks(s, id); }
  }

  lemma LateStatementKeepsLocks(s: State, id: CallId)
    requires id in s.calls && Try(s, id).Local? && Position(s.calls[id].phase) >= 9
    ensures KeepsLocks(s.calls[id], Try(s, id).call)
  {
  }

  lemma OwnStepHolds(db: Database, s: State, id: CallId, row: Lock)
    requires StillHeld(db, s, id, row) && Apply(s, Advance(id)).Some?
    ensures StillHeld(db, Apply(s, Advance(id)).value, id, row)
  {
    AdvanceEffect(s, id);
    if Try(s, id).Local? {
      StatementKeepsLocks(s, id);
    }
  }

  lemma CommitSparesRow(db: Database, committer: CallId, c: Call, d: Call, row: Lock)
    requires CallInv(db, committer, c) && c.phase.AtCommit? && row in d.locks
    requires forall lock :: lock in c.locks ==> lock !in d.locks
    requires row.QuoteLock? ==> row.quoteId in db.quotes
    ensures SameRow(db, Published(db, c), row)
  {
    assert !Changes(c, row) by {
      if Changes(c, row) { ChangedRowsAreLocked(db, committer, c, row); }
    }
  }

  lemma SameRowThrough(db: Database, between: Database, after: Database, row: Lock)
    requires SameRow(db, between, row) && SameRow(between, after, row)
    ensures SameRow(db, after, row)
  {
  }

  lemma OthersActionSparesRow(s: State, action: Action, id: CallId, row: Lock)
    requires EveryCall(s.db, s.calls) && Exclusive(s.calls) && Apply(s, action).Some? && action != Advance(id)
    requires id in s.calls && row in s.calls[id].locks && SameRow(s.db, s.db, row) && action != CommitUnheard(id)
    ensures SameRow(s.db, Apply(s, action).value.db, row)
  {
    DatabaseAfter(s, action);
    if Commits(s, action) {
      assert CallInv(s.db, action.id, s.calls[action.id]);
      CommitSparesRow(s.db, action.id, s.calls[action.id], s.calls[id], row);
    }
  }

  lemma HeldThrough(db: Database, s: State, s': State, id: CallId, row: Lock)
    requires StillHeld(db, s, id, row) && id in s'.calls
    requires Gone(s'.calls[id]) || (s'.calls[id] == s.calls[id] && SameRow(s.db, s'.db, row))
    ensures StillHeld(db, s', id, row)
  {
    if !Gone(s'.calls[id]) { SameRowThrough(db, s.db, s'.db, row); }
  }

  lemma CutOffIsGone(c: Call, answer: Answer)
    ensures Gone(Ended(c, answer))
  {
  }

  lemma OthersStepHolds(db: Database, s: State, action: Action, id: CallId, row: Lock)
    requires EveryCall(s.db, s.calls) && Exclusive(s.calls)
    requires StillHeld(db, s, id, row) && Apply(s, action).Some? && action != Advance(id)
    ensures StillHeld(db, Apply(s, action).value, id, row)
  {
    CallAfter(s, action, id);
    CutOffIsGone(s.calls[id], ServerError);
    if action != Drop(id) && action != CommitUnheard(id) && !Gone(s.calls[id]) {
      OthersActionSparesRow(s, action, id, row);
    }
    HeldThrough(db, s, Apply(s, action).value, id, row);
  }

  lemma {:induction false} RunHolds(s: State, actions: seq<Action>, id: CallId, row: Lock)
    requires Inv(s) && Run(s, actions).Some? && StillHeld(s.db, s, id, row)
    ensures StillHeld(s.db, Run(s, actions).value, id, row)
  {
    if actions != [] {
      var before, last := actions[..|actions| - 1], actions[|actions| - 1];
      RunHolds(s, before, id, row);
      RunKeepsInv(s, before);
      if last == Advance(id) {
        OwnStepHolds(s.db, Run(s, before).value, id, row);
      } else {
        OthersStepHolds(s.db, Run(s, before).value, last, id, row);
      }
    }
  }

  lemma HeldQuoteIsStored(db: Database, id: CallId, c: Call, row: Lock)
    requires CallInv(db, id, c) && row in c.locks
    ensures SameRow(db, db, row)
  {
    assert Holds(c, row);
  }

  lemma GoneHoldsNothing(db: Database, id: CallId, c: Call)
    requires CallInv(db, id, c)
    ensures Gone(c) ==> c.locks == {}
  {
    forall lock ensures Gone(c) ==> lock !in c.locks {
      assert lock in c.locks <==> Holds(c, lock);
    }
  }

  /**
   * From the statement that locks a balance or quote row to the end of the
   * transaction, whatever else runs, the committed row does not change.
   */
  lemma LockedRowsDoNotMove(s: State, actions: seq<Action>, id: CallId, row: Lock)
    requires Reachable(s) && Run(s, actions).Some? && id in s.calls && row in s.calls[id].locks
    requires id in Run(s, actions).value.calls && row in Run(s, actions).value.calls[id].locks
    ensures SameRow(s.db, Run(s, actions).value.db, row)
  {
    ReachableKeepsInv(s);
    assert CallInv(s.db, id, s.calls[id]);
    HeldQuoteIsStored(s.db, id, s.calls[id], row);
    RunHolds(s, actions, id, row);
    RunKeepsInv(s, actions);
    var later := Run(s, actions).value;
    assert CallInv(later.db, id, later.calls[id]);
    GoneHoldsNothing(later.db, id, later.calls[id]);
  }

  // ---- What the guards test ----

  /** Between a balance update and its ledger entry the two are out of step. */
  predicate EntryPending(c: Call) {
    c.phase.AtDebitEntry? || c.phase.AtCreditEntry?
  }

  lemma ZeroRowsSeen(balances: map<Account, int>, accounts: seq<Account>, a: Account)
    ensures Seen(balances, ZeroRows(balances, accounts), a) == Available(balances, a)
  {
  }

  lemma DebitSeen(balances: map<Account, int>, id: CallId, r: Request, q: Option<Quote>, a: Account)
    requires LegsKnown(r, q)
    ensures Seen(balances, DebitWrites(balances, r, q), a) == Available(balances, a) + Total(DebitEntries(id, r, q), a)
  {
    OwnEntries(id, r, q, a);
    ZeroRowsSeen(balances, Accounts(r, q), a);
  }

  lemma CreditSeen(balances: map<Account, int>, id: CallId, r: Request, q: Option<Quote>, a: Account)
    requires LegsKnown(r, q)
    ensures Seen(balances, CreditWrites(balances, r, q), a) == Available(balances, a) + Total(AllEntries(id, r, q), a)
  {
    OwnEntries(id, r, q, a);
    DebitSeen(balances, id, r, q, a);
  }

  lemma SeenIsCommittedAndOwn(balances: map<Account, int>, id: CallId, c: Call, a: Account)
    requires MoneyInv(balances, id, c) && Position(c.phase) <= 12 && !EntryPending(c)
    ensures Seen(balances, c.writes, a) == Available(balances, a) + Total(c.entries, a)
  {
    if c.phase.AtRowInsert? {
      ZeroRowsSeen(balances, Accounts(c.request, c.quote)[..c.phase.next], a);
    } else if c.phase.AtRowLock? || c.phase.AtDebit? {
      ZeroRowsSeen(balances, Accounts(c.request, c.quote), a);
    } else if c.phase.AtCredit? {
      DebitSeen(balances, id, c.request, c.quote, a);
    } else if Position(c.phase) >= 9 {
      CreditSeen(balances, id, c.request, c.quote, a);
    }
  }

  lemma OwnEntries(id: CallId, r: Request, q: Option<Quote>, a: Account)
    requires LegsKnown(r, q)
    ensures Total(DebitEntries(id, r, q), a) ==
      if r.TradeRequest? && DebitLeg(q.value).account == a then -DebitLeg(q.value).amountMinor else 0
    ensures Total(AllEntries(id, r, q), a) ==
      Total(DebitEntries(id, r, q), a) + if Credited(r, q).account == a then Credited(r, q).amountMinor else 0
  {
    if r.TradeRequest? {
      Append([], Entry(DebitLeg(q.value).account, -DebitLeg(q.value).amountMinor, RefOf(r, id)));
      assert [] + DebitEntries(id, r, q) == DebitEntries(id, r, q);
    }
    Append(DebitEntries(id, r, q), Entry(Credited(r, q).account, Credited(r, q).amountMinor, RefOf(r, id)));
  }

  /**
   * The balance a transaction reads, in its debit guard and its credit, is the one
   * committed when it took the row's lock plus the ledger entries it has written itself.
   */
  lemma GuardsTestTheLockedBalance(s: State, actions: seq<Action>, id: CallId, a: Account)
    requires Reachable(s) && Run(s, actions).Some? && id in s.calls && RowLock(a) in s.calls[id].locks
    requires id in Run(s, actions).value.calls && RowLock(a) in Run(s, actions).value.calls[id].locks
    requires !EntryPending(Run(s, actions).value.calls[id])
    ensures var later := Run(s, actions).value;
      Seen(later.db.balances, later.calls[id].writes, a) == Available(s.db.balances, a) + Total(later.calls[id].entries, a)
  {
    LockedRowsDoNotMove(s, actions, id, RowLock(a));
    ReachableKeepsInv(s);
    RunKeepsInv(s, actions);
    var later := Run(s, actions).value;
    assert CallInv(later.db, id, later.calls[id]);
    GoneHoldsNothing(later.db, id, later.calls[id]);
    SeenIsCommittedAndOwn(later.db.balances, id, later.calls[id], a);
  }
}
