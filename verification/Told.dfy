/** What a call is told in every reachable state, and what the tables then hold, said on the rows alone. */
module Told {
  import opened Schema
  import opened Settlement
  import opened LedgerInvariant
  import opened Effects
  import opened Protocol
  import opened ProtocolInvariant
  import opened ProtocolRuns

  // ---- The first lookup ----

  /** The call with this key goes on when no trade has it, and else is answered from the trade that has. */
  lemma LookupTellsExactly(s: State, id: CallId)
    requires Reachable(s) && id in s.calls && s.calls[id].phase.AtLookup?
    ensures Try(s, id).Local?
    ensures var r, p := s.calls[id].request, Try(s, id).call.phase;
      && (p.AtQuoteLock? <==> !KeyUsed(s.db.trades, r.clientId, r.key))
      && forall t :: t in s.db.trades && t.clientId == r.clientId && t.idempotencyKey == r.key ==>
           && (p == Answered(Replayed(t)) <==> t.quoteId == r.quoteId)
           && (p == Answered(KeyConflict) <==> t.quoteId != r.quoteId)
  {
    ReachableKeepsInv(s);
    LookupTells(s, s.calls[id]);
  }

  lemma LookupTells(s: State, c: Call)
    requires TradesUnique(s.db.trades) && c.phase.AtLookup?
    ensures TryLookup(s, c).Local?
    ensures var r, p := c.request, TryLookup(s, c).call.phase;
      && (p.AtQuoteLock? <==> !KeyUsed(s.db.trades, r.clientId, r.key))
      && forall t :: t in s.db.trades && t.clientId == r.clientId && t.idempotencyKey == r.key ==>
           && (p == Answered(Replayed(t)) <==> t.quoteId == r.quoteId)
           && (p == Answered(KeyConflict) <==> t.quoteId != r.quoteId)
  {
    KeyLookup(s.db.trades, c.request.clientId, c.request.key);
    forall t | t in s.db.trades && t.clientId == c.request.clientId && t.idempotencyKey == c.request.key
      ensures FindByIdempotencyKey(s.db.trades, c.request.clientId, c.request.key) == Some(t)
    {
      TheOneTrade(s.db.trades, t);
    }
  }

  lemma TheOneTrade(trades: seq<Trade>, t: Trade)
    requires TradesUnique(trades) && t in trades
    ensures FindByIdempotencyKey(trades, t.clientId, t.idempotencyKey) == Some(t)
  {
    KeyLookup(trades, t.clientId, t.idempotencyKey);
    var found := FindByIdempotencyKey(trades, t.clientId, t.idempotencyKey).value;
    var i :| 0 <= i < |trades| && trades[i] == t;
    var j :| 0 <= j < |trades| && trades[j] == found;
  }

  // ---- The guards ----

  /** The time a trade's refusal is judged by: now until the check, the time of the check afterwards. */
  function JudgedBy(s: State, c: Call): int {
    if c.phase.AtQuoteLock? || c.phase.AtQuoteCheck? then s.clock else c.checkedAt
  }

  /** A trade told of a refusal at any statement is told of one whose grounds hold at that moment. */
  lemma RefusalHasGrounds(s: State, id: CallId, why: Refusal)
    requires Reachable(s) && id in s.calls && s.calls[id].request.TradeRequest? && !Finished(s.calls[id])
    requires Try(s, id).Local? && Try(s, id).call.phase == Answered(Refused(why))
    ensures var c := s.calls[id]; var r := c.request;
      Grounds(why, s.db, r.clientId, r.quoteId, r.key, JudgedBy(s, c))
  {
    var c, r := s.calls[id], s.calls[id].request;
    RefusalIsAtomic(s, id);
    OnlyStatementsRefuse(s, id);
    RefusedExactlyWhen(s.db, r.clientId, r.quoteId, r.key, JudgedBy(s, c), id, why);
  }

  lemma OnlyStatementsRefuse(s: State, id: CallId)
    requires id in s.calls && Try(s, id).Local? && Finished(Try(s, id).call) && Try(s, id).call.phase.answer.Refused?
    requires s.calls[id].request.TradeRequest? && !Finished(s.calls[id])
    ensures s.calls[id].phase.AtQuoteLock? || s.calls[id].phase.AtQuoteCheck? || AfterCheck(s.calls[id].phase)
  {
  }

  /** The check of the quote row tells each of its refusals exactly when its grounds hold, and else goes on. */
  lemma CheckTellsExactly(s: State, id: CallId)
    requires Reachable(s) && id in s.calls && s.calls[id].phase.AtQuoteCheck?
    ensures Try(s, id).Local?
    ensures var r, p := s.calls[id].request, Try(s, id).call.phase;
      && r.quoteId in s.db.quotes
      && var q := s.db.quotes[r.quoteId];
        && (p == Answered(Refused(NotFound)) <==> q.clientId != r.clientId)
        && (p == Answered(Refused(AlreadyExecuted)) <==> q.clientId == r.clientId && q.status == EXECUTED)
        && (p == Answered(Refused(Expired)) <==> q.clientId == r.clientId && q.status == ACTIVE && s.clock >= q.expiresAt)
        && (p == AtRowInsert(0) <==> q.clientId == r.clientId && q.status == ACTIVE && s.clock < q.expiresAt)
  {
    ReachableKeepsInv(s);
    assert CallInv(s.db, id, s.calls[id]);
    CheckTells(s, id, s.calls[id]);
  }

  lemma CheckTells(s: State, id: CallId, c: Call)
    requires FactsInv(s.db, id, c) && c.phase.AtQuoteCheck?
    ensures TryQuote(s, id, c).Local?
    ensures var r, p := c.request, TryQuote(s, id, c).call.phase;
      && r.quoteId in s.db.quotes
      && var q := s.db.quotes[r.quoteId];
        && (p == Answered(Refused(NotFound)) <==> q.clientId != r.clientId)
        && (p == Answered(Refused(AlreadyExecuted)) <==> q.clientId == r.clientId && q.status == EXECUTED)
        && (p == Answered(Refused(Expired)) <==> q.clientId == r.clientId && q.status == ACTIVE && s.clock >= q.expiresAt)
        && (p == AtRowInsert(0) <==> q.clientId == r.clientId && q.status == ACTIVE && s.clock < q.expiresAt)
  {
  }

  /** No row to lock is a 404, and only that. */
  lemma MissingQuoteIsNotFound(s: State, id: CallId)
    requires id in s.calls && s.calls[id].phase.AtQuoteLock?
    ensures Try(s, id) == Local(Ended(s.calls[id], Refused(NotFound))) <==> s.calls[id].request.quoteId !in s.db.quotes
  {
  }

  /** The guarded debit refuses exactly when the committed balance does not cover what the side owes. */
  lemma DebitTellsExactly(s: State, id: CallId)
    requires Reachable(s) && id in s.calls && s.calls[id].phase.AtDebit?
    ensures Try(s, id).Local? && s.calls[id].request.quoteId in s.db.quotes
    ensures Try(s, id).call.phase == Answered(Refused(InsufficientBalance)) <==>
            !CanPay(s.db, s.db.quotes[s.calls[id].request.quoteId])
    ensures Try(s, id).call.phase.AtDebitEntry? <==> CanPay(s.db, s.db.quotes[s.calls[id].request.quoteId])
  {
    ReachableKeepsInv(s);
    assert CallInv(s.db, id, s.calls[id]);
    DebitTells(s, id, s.calls[id]);
  }

  lemma DebitTells(s: State, id: CallId, c: Call)
    requires CallInv(s.db, id, c) && c.phase.AtDebit?
    ensures TryDebit(s, id, c).Local? && c.request.quoteId in s.db.quotes
    ensures TryDebit(s, id, c).call.phase == Answered(Refused(InsufficientBalance)) <==> !CanPay(s.db, s.db.quotes[c.request.quoteId])
    ensures TryDebit(s, id, c).call.phase.AtDebitEntry? <==> CanPay(s.db, s.db.quotes[c.request.quoteId])
  {
  }

  /** The credit refuses exactly when what it makes does not fit the column: a trade's by CanHold, a deposit's by its sum. */
  lemma CreditTellsExactly(s: State, id: CallId)
    requires Reachable(s) && id in s.calls && s.calls[id].phase.AtCredit?
    ensures Try(s, id).Local?
    ensures var r, refused := s.calls[id].request, Try(s, id).call.phase == Answered(Refused(OutOfRange));
      && (r.TradeRequest? ==> r.quoteId in s.db.quotes && (refused <==> !CanHold(s.db, s.db.quotes[r.quoteId])))
      && (r.DepositRequest? ==>
            var a := r.leg.account;
            (refused <==> (r.leg.amountMinor > MAX_BIGINT
                           || Balance(s.db, a.clientId, a.currency) + r.leg.amountMinor > MAX_BIGINT)))
      && (!refused <==> Try(s, id).call.phase.AtCreditEntry?)
  {
    ReachableKeepsInv(s);
    assert CallInv(s.db, id, s.calls[id]);
    CreditTells(s, id, s.calls[id]);
  }

  lemma CreditTells(s: State, id: CallId, c: Call)
    requires CallInv(s.db, id, c) && c.phase.AtCredit?
    ensures TryCredit(s, id, c).Local?
    ensures var r, refused := c.request, TryCredit(s, id, c).call.phase == Answered(Refused(OutOfRange));
      && (r.TradeRequest? ==> r.quoteId in s.db.quotes && (refused <==> !CanHold(s.db, s.db.quotes[r.quoteId])))
      && (r.DepositRequest? ==>
            var a := r.leg.account;
            (refused <==> (r.leg.amountMinor > MAX_BIGINT
                           || Balance(s.db, a.clientId, a.currency) + r.leg.amountMinor > MAX_BIGINT)))
      && (!refused <==> TryCredit(s, id, c).call.phase.AtCreditEntry?)
  {
  }

  /** At the key index a trade goes on exactly when no committed trade of the client has the key. */
  lemma KeyIndexTellsExactly(s: State, id: CallId)
    requires id in s.calls && s.calls[id].phase.AtKeyIndex? && Try(s, id).Local?
    ensures Try(s, id).call.phase.AtQuoteFlip? <==>
            !KeyUsed(s.db.trades, s.calls[id].request.clientId, s.calls[id].request.key)
  {
    KeyLookup(s.db.trades, s.calls[id].request.clientId, s.calls[id].request.key);
  }

  // ---- What has been committed ----

  lemma OthersEntryNotMine(ledger: seq<Entry>, e: Entry, f: Entry, ref: Ref)
    requires e.ref != ref && f.ref != ref
    ensures EntriesFor(ledger + [e], ref) == EntriesFor(ledger, ref)
    ensures EntriesFor(ledger + [e] + [f], ref) == EntriesFor(ledger, ref)
  {
    Append(ledger, e);
    Append(ledger + [e], f);
  }

  /** An operation writes no entry for an id that is already used. */
  lemma LaterOperationsLeaveEntries(db: Database, op: Operation, ref: Ref)
    requires Perform(db, op).Some?
    requires exists e :: e in db.ledger && e.ref == ref
    requires ref.TradeRef? || ref.DepositRef?
    ensures EntriesFor(Perform(db, op).value.ledger, ref) == EntriesFor(db.ledger, ref)
    ensures exists e :: e in Perform(db, op).value.ledger && e.ref == ref
  {
    var e :| e in db.ledger && e.ref == ref;
    match op
    case TradeOp(clientId, quoteId, key, checkedAt, id) =>
      TradeLeavesRows(db, clientId, quoteId, key, checkedAt, id);
      var written := Entries(db.quotes[quoteId], id);
      assert db.ledger + written == db.ledger + [written[0]] + [written[1]];
      OthersEntryNotMine(db.ledger, written[0], written[1], ref);
      assert e in Perform(db, op).value.ledger;
    case DepositOp(leg, id) =>
      DepositExactly(db, leg, id);
      var mine := Entry(leg.account, leg.amountMinor, DepositRef(id));
      OthersEntryNotMine(db.ledger, mine, mine, ref);
      assert e in Perform(db, op).value.ledger;
    case QuoteOp(_, _) =>
  }

  lemma DepositJustMade(db: Database, leg: Leg, id: CallId)
    requires Perform(db, DepositOp(leg, id)).Some?
    ensures EntriesFor(Perform(db, DepositOp(leg, id)).value.ledger, DepositRef(id))
         == [Entry(leg.account, leg.amountMinor, DepositRef(id))]
    ensures Entry(leg.account, leg.amountMinor, DepositRef(id)) in Perform(db, DepositOp(leg, id)).value.ledger
  {
    DepositExactly(db, leg, id);
    Append(db.ledger, Entry(leg.account, leg.amountMinor, DepositRef(id)));
    NoEntries(db.ledger, DepositRef(id));
  }

  /** Every deposit of a history has left exactly one entry: its own amount, on its own account. */
  lemma {:induction false} DepositsPayInTheirAmount(db: Database, history: seq<Operation>, i: nat)
    requires Replay(db, history).Some? && i < |history| && history[i].DepositOp?
    ensures var leg, id, ledger := history[i].leg, history[i].id, Replay(db, history).value.ledger;
      && EntriesFor(ledger, DepositRef(id)) == [Entry(leg.account, leg.amountMinor, DepositRef(id))]
      && Entry(leg.account, leg.amountMinor, DepositRef(id)) in ledger
  {
    var n := |history| - 1;
    var before := Replay(db, history[..n]).value;
    if i == n {
      DepositJustMade(before, history[i].leg, history[i].id);
    } else {
      DepositsPayInTheirAmount(db, history[..n], i);
      var mine := Entry(history[i].leg.account, history[i].leg.amountMinor, DepositRef(history[i].id));
      LaterOperationsLeaveEntries(before, history[n], DepositRef(history[i].id));
      StillThere(before, history[n], mine);
    }
  }

  lemma StillThere(db: Database, op: Operation, e: Entry)
    requires Perform(db, op).Some? && e in db.ledger
    ensures e in Perform(db, op).value.ledger
  {
    if op.TradeOp? { TradeLeavesRows(db, op.clientId, op.quoteId, op.key, op.checkedAt, op.id); }
  }

  // ---- Success is on record ----

  /** What a call told of success has in the history. */
  predicate OnRecord(history: seq<Operation>, id: CallId, c: Call) {
    c.phase.Answered? ==>
      match c.phase.answer
      case Deposited => c.request.DepositRequest? && DepositOp(c.request.leg, id) in history
      case Created(t) =>
        c.request.TradeRequest? && t.id == id
        && exists op :: op in history && op.TradeOp? && op.id == id && op.clientId == c.request.clientId
                     && op.quoteId == c.request.quoteId && op.key == c.request.key
      case _ => true
  }

  ghost predicate AllOnRecord(s: State) {
    forall id :: id in s.calls ==> OnRecord(s.history, id, s.calls[id])
  }

  lemma RecordGrows(history: seq<Operation>, longer: seq<Operation>, id: CallId, c: Call)
    requires OnRecord(history, id, c) && history <= longer
    ensures OnRecord(longer, id, c)
  {
    assert forall op :: op in history ==> op in longer;
  }

  lemma HistoryGrows(s: State, action: Action)
    requires Apply(s, action).Some?
    ensures s.history <= Apply(s, action).value.history
  {
  }

  lemma StatementsReportNoSuccess(s: State, id: CallId)
    requires id in s.calls && !Finished(s.calls[id]) && Try(s, id).Local?
    ensures Finished(Try(s, id).call) ==>
      !Try(s, id).call.phase.answer.Deposited? && !Try(s, id).call.phase.answer.Created?
  {
  }

  lemma CommitOnRecord(s: State, id: CallId, answer: Answer)
    requires id in s.calls && CallInv(s.db, id, s.calls[id]) && s.calls[id].phase.AtCommit?
    requires CommitAnswer(s.calls[id], answer)
    ensures OnRecord(AfterCommit(s, id, answer).history, id, Ended(s.calls[id], answer))
  {
    var op := OperationOf(s.calls[id], id);
    assert op in AfterCommit(s, id, answer).history;
  }

  lemma OwnStepOnRecord(s: State, id: CallId)
    requires EveryCall(s.db, s.calls) && Apply(s, Advance(id)).Some?
    ensures OnRecord(Apply(s, Advance(id)).value.history, id, Apply(s, Advance(id)).value.calls[id])
  {
    AdvanceEffect(s, id);
    if Try(s, id).Local? {
      StatementsReportNoSuccess(s, id);
    } else {
      assert CallInv(s.db, id, s.calls[id]);
      CommitOnRecord(s, id, Try(s, id).answer);
    }
  }

  lemma StepOnRecord(s: State, action: Action, id: CallId)
    requires EveryCall(s.db, s.calls) && AllOnRecord(s) && Apply(s, action).Some? && id in Apply(s, action).value.calls
    ensures OnRecord(Apply(s, action).value.history, id, Apply(s, action).value.calls[id])
  {
    if action == Advance(id) {
      OwnStepOnRecord(s, id);
    } else if id in s.calls {
      CallAfter(s, action, id);
      HistoryGrows(s, action);
      RecordGrows(s.history, Apply(s, action).value.history, id, s.calls[id]);
    }
  }

  lemma {:induction false} RunOnRecord(start: State, actions: seq<Action>)
    requires Inv(start) && AllOnRecord(start) && Run(start, actions).Some?
    ensures AllOnRecord(Run(start, actions).value)
  {
    if actions != [] {
      var before := actions[..|actions| - 1];
      RunOnRecord(start, before);
      RunKeepsInv(start, before);
      forall id | id in Run(start, actions).value.calls
        ensures OnRecord(Run(start, actions).value.history, id, Run(start, actions).value.calls[id])
      {
        StepOnRecord(Run(start, before).value, actions[|actions| - 1], id);
      }
    }
  }

  /**
   * In every reachable state a deposit that was told it went through has exactly one
   * ledger entry: the requested amount, on the requested account.
   */
  lemma DepositedMeansPaidIn(db: Database, now: int, errorsWrapped: bool, actions: seq<Action>, id: CallId)
    requires Consistent(db) && Run(Start(db, now, errorsWrapped), actions).Some?
    requires var s := Run(Start(db, now, errorsWrapped), actions).value;
      id in s.calls && s.calls[id].phase == Answered(Deposited)
    ensures var s := Run(Start(db, now, errorsWrapped), actions).value;
      && s.calls[id].request.DepositRequest?
      && var leg := s.calls[id].request.leg;
        EntriesFor(s.db.ledger, DepositRef(id)) == [Entry(leg.account, leg.amountMinor, DepositRef(id))]
  {
    var s := Run(Start(db, now, errorsWrapped), actions).value;
    Serializable(db, now, errorsWrapped, actions);
    StartIsFine(db, now, errorsWrapped);
    RunOnRecord(Start(db, now, errorsWrapped), actions);
    assert OnRecord(s.history, id, s.calls[id]);
    var i :| 0 <= i < |s.history| && s.history[i] == DepositOp(s.calls[id].request.leg, id);
    DepositsPayInTheirAmount(db, s.history, i);
  }

  /**
   * In every reachable state every trade row copies its quote field by field, and its
   * ledger entries are the two of its side, payment first.
   */
  lemma TradesCopyTheirQuotes(s: State, t: Trade)
    requires Reachable(s) && t in s.db.trades
    ensures t.quoteId in s.db.quotes
    ensures var q := s.db.quotes[t.quoteId];
      && q.status == EXECUTED && Copies(t, q, t.quoteId, t.idempotencyKey, t.id)
      && EntriesFor(s.db.ledger, TradeRef(t.id)) == Entries(q, t.id)
  {
    ReachableKeepsInv(s);
    SettledRow(s.db, t);
  }

  lemma SettledRow(db: Database, t: Trade)
    requires TradesSettled(db) && QuotesMatchTrades(db) && t in db.trades
    ensures t.quoteId in db.quotes
    ensures var q := db.quotes[t.quoteId];
      && q.status == EXECUTED && Copies(t, q, t.quoteId, t.idempotencyKey, t.id)
      && EntriesFor(db.ledger, TradeRef(t.id)) == Entries(q, t.id)
  {
    assert SettledFrom(db, t);
    var i :| 0 <= i < |db.trades| && db.trades[i] == t;
    assert QuoteUsed(db.trades, t.quoteId);
  }
}
