/** What retried and racing executeTrade calls are told, and what they can move. */
module Retries {
  import opened Schema
  import opened Settlement
  import opened LedgerInvariant
  import opened Protocol
  import opened ProtocolInvariant
  import opened ProtocolRuns
  import opened Strings

  // ---- The catch block ----

  /** The second unique index never fires: the quote lock and the status check come first. */
  lemma QuoteIndexNeverFires(s: State, id: CallId)
    requires Reachable(s) && id in s.calls && s.calls[id].phase.AtTradeInsert?
    ensures Try(s, id).Local? && Try(s, id).call.phase.AtKeyIndex?
  {
    ReachableKeepsInv(s);
    var c := s.calls[id];
    assert CallInv(s.db, id, c);
    QuoteIndexIsFree(s.db, id, c);
    assert QuoteLock(c.request.quoteId) in c.locks <==> Holds(c, QuoteLock(c.request.quoteId));
    forall u | u in s.calls && u != id ensures QuoteIndex(c.request.quoteId) !in s.calls[u].locks {
      assert CallInv(s.db, u, s.calls[u]);
      IndexUnderLock(s.calls[u], c.request.quoteId);
    }
  }

  /** The quote's index entry is taken only under the quote's row lock. */
  lemma IndexUnderLock(c: Call, quoteId: QuoteId)
    requires LocksInv(c)
    ensures QuoteIndex(quoteId) in c.locks ==> QuoteLock(quoteId) in c.locks
  {
    assert QuoteIndex(quoteId) in c.locks <==> Holds(c, QuoteIndex(quoteId));
    assert QuoteLock(quoteId) in c.locks <==> Holds(c, QuoteLock(quoteId));
  }

  /** A violation on the key index means the key has settled a different quote. */
  lemma KeyViolationIsAnotherQuote(s: State, id: CallId)
    requires Reachable(s) && id in s.calls && s.calls[id].phase.AtKeyIndex? && Try(s, id).Local?
    requires !Try(s, id).call.phase.AtQuoteFlip?
    ensures KeySettledElsewhere(s.db.trades, s.calls[id].request)
    ensures Try(s, id).call.phase == if s.errorsWrapped then Answered(ServerError) else AtRaceLookup
  {
    ReachableKeepsInv(s);
    assert CallInv(s.db, id, s.calls[id]);
    KeyIndexOutcome(s, id, s.calls[id]);
    TakenKeyIsElsewhere(s.db, id, s.calls[id]);
  }

  lemma KeyIndexOutcome(s: State, id: CallId, c: Call)
    requires c.phase.AtKeyIndex? && TryTrade(s, id, c).Local?
    ensures FindByIdempotencyKey(s.db.trades, c.request.clientId, c.request.key).None? ==> TryTrade(s, id, c).call.phase.AtQuoteFlip?
    ensures FindByIdempotencyKey(s.db.trades, c.request.clientId, c.request.key).Some? ==>
      TryTrade(s, id, c).call.phase == if s.errorsWrapped then Answered(ServerError) else AtRaceLookup
  {
  }

  lemma TakenKeyIsElsewhere(db: Database, id: CallId, c: Call)
    requires QuotesMatchTrades(db) && FactsInv(db, id, c) && c.phase.AtKeyIndex?
    requires FindByIdempotencyKey(db.trades, c.request.clientId, c.request.key).Some?
    ensures KeySettledElsewhere(db.trades, c.request)
  {
    QuoteIndexIsFree(db, id, c);
    var t := FindByIdempotencyKey(db.trades, c.request.clientId, c.request.key).value;
    var i :| 0 <= i < |db.trades| && db.trades[i] == t;
    assert t.quoteId != c.request.quoteId;
  }

  /** There is one trade to find for a key, wherever it stands in the table. */
  lemma FoundIsUnique(trades: seq<Trade>, t: Trade)
    requires TradesUnique(trades) && t in trades
    ensures FindByIdempotencyKey(trades, t.clientId, t.idempotencyKey) == Some(t)
  {
    var found := FindByIdempotencyKey(trades, t.clientId, t.idempotencyKey).value;
    var i :| 0 <= i < |trades| && trades[i] == t;
    var j :| 0 <= j < |trades| && trades[j] == found;
  }

  /** The catch block finds the winner and always answers with a conflict, never with a replay. */
  lemma RaceEndsInConflict(s: State, id: CallId)
    requires Reachable(s) && id in s.calls && s.calls[id].phase.AtRaceLookup?
    ensures Try(s, id) == Local(s.calls[id].(phase := Answered(KeyConflict)))
  {
    ReachableKeepsInv(s);
    assert CallInv(s.db, id, s.calls[id]);
    LoserFindsWinner(s, id, s.calls[id]);
  }

  lemma LoserFindsWinner(s: State, id: CallId, c: Call)
    requires TradesUnique(s.db.trades) && FactsInv(s.db, id, c) && c.phase.AtRaceLookup?
    ensures TryLookup(s, c) == Local(c.(phase := Answered(KeyConflict)))
  {
    var r := c.request;
    var t :| t in s.db.trades && HasKey(t, r.clientId, r.key) && t.quoteId != r.quoteId;
    FoundIsUnique(s.db.trades, t);
  }

  // ---- Retrying after the fact ----

  /**
   * A call that starts its lookup after a trade with its key is committed gets
   * that trade back, or a conflict when it asked for another quote; nothing moves.
   */
  lemma RetryReplays(s: State, id: CallId, t: Trade)
    requires Reachable(s) && id in s.calls && s.calls[id].phase.AtLookup?
    requires t in s.db.trades && HasKey(t, s.calls[id].request.clientId, s.calls[id].request.key)
    ensures Apply(s, Advance(id)).Some?
    ensures var s' := Apply(s, Advance(id)).value;
      && s'.db == s.db
      && s'.calls[id].phase == Answered(if t.quoteId == s.calls[id].request.quoteId then Replayed(t) else KeyConflict)
  {
    ReachableKeepsInv(s);
    LookupAnswers(s, id, t);
  }

  lemma LookupAnswers(s: State, id: CallId, t: Trade)
    requires TradesUnique(s.db.trades) && id in s.calls && s.calls[id].phase.AtLookup? && t in s.db.trades
    requires HasKey(t, s.calls[id].request.clientId, s.calls[id].request.key)
    ensures Apply(s, Advance(id)) ==
      Some(AfterLocal(s, id, s.calls[id].(phase := Answered(if t.quoteId == s.calls[id].request.quoteId then Replayed(t) else KeyConflict))))
  {
    LookupFinds(s, s.calls[id], t);
  }

  /** All such a call can be told of the trade its key made: itself, a conflict, or that the line was lost. */
  predicate ToldOf(t: Trade, r: Request, p: Phase)
    requires r.TradeRequest?
  {
    || p.AtLookup?
    || p == Answered(if t.quoteId == r.quoteId then Replayed(t) else KeyConflict)
    || p == Answered(ServerError)
  }

  ghost predicate Retrying(s: State, id: CallId, t: Trade, r: Request) {
    && t in s.db.trades && r.TradeRequest? && HasKey(t, r.clientId, r.key)
    && id in s.calls && s.calls[id].request == r && ToldOf(t, r, s.calls[id].phase)
  }

  lemma LookupFinds(s: State, c: Call, t: Trade)
    requires TradesUnique(s.db.trades) && t in s.db.trades && c.phase.AtLookup?
    requires HasKey(t, c.request.clientId, c.request.key)
    ensures TryLookup(s, c) == Local(c.(phase := Answered(if t.quoteId == c.request.quoteId then Replayed(t) else KeyConflict)))
  {
    FoundIsUnique(s.db.trades, t);
  }

  lemma RetryStep(s: State, action: Action, id: CallId, t: Trade, r: Request)
    requires TradesUnique(s.db.trades) && Retrying(s, id, t, r) && Apply(s, action).Some?
    ensures Retrying(Apply(s, action).value, id, t, r)
  {
    DatabaseAfter(s, action);
    if action == Advance(id) {
      LookupFinds(s, s.calls[id], t);
    } else {
      CallAfter(s, action, id);
    }
  }

  lemma {:induction false} RetryRun(s: State, actions: seq<Action>, id: CallId, t: Trade, r: Request)
    requires Inv(s) && Retrying(s, id, t, r) && Run(s, actions).Some?
    ensures Retrying(Run(s, actions).value, id, t, r)
  {
    if actions != [] {
      var before := actions[..|actions| - 1];
      RetryRun(s, before, id, t, r);
      RunKeepsInv(s, before);
      RetryStep(Run(s, before).value, actions[|actions| - 1], id, t, r);
    }
  }

  /**
   * A call begun after a trade with its key is committed is, in every later run, still
   * at its lookup, or answered with that very trade for the same quote and with a
   * conflict for another, or cut off; it never moves anything.
   */
  lemma RetryOverRuns(s: State, id: CallId, t: Trade, quoteId: QuoteId, rawKey: string, actions: seq<Action>)
    requires Reachable(s) && t in s.db.trades && t.idempotencyKey == Trim(rawKey)
    requires Apply(s, BeginTrade(id, t.clientId, quoteId, rawKey)).Some?
    requires Run(Apply(s, BeginTrade(id, t.clientId, quoteId, rawKey)).value, actions).Some?
    ensures var later := Run(Apply(s, BeginTrade(id, t.clientId, quoteId, rawKey)).value, actions).value;
      && id in later.calls && ToldOf(t, TradeRequest(t.clientId, quoteId, Trim(rawKey)), later.calls[id].phase)
      && t in later.db.trades
      && forall op :: op in later.history && (op.TradeOp? || op.DepositOp?) && op.id == id ==> op in s.history
  {
    var begin := BeginTrade(id, t.clientId, quoteId, rawKey);
    ReachableKeepsInv(s);
    ApplyKeepsInv(s, begin);
    var begun, r := Apply(s, begin).value, TradeRequest(t.clientId, quoteId, Trim(rawKey));
    RetryRun(begun, actions, id, t, r);
    RetryCommitsNothing(begun, actions, id, t, r);
  }

  lemma RetryAddsNothing(s: State, action: Action, id: CallId)
    requires id in s.calls && !AfterCheck(s.calls[id].phase) && Apply(s, action).Some?
    ensures forall op :: op in Apply(s, action).value.history && (op.TradeOp? || op.DepositOp?) && op.id == id ==> op in s.history
  {
  }

  lemma {:induction false} RetryCommitsNothing(s: State, actions: seq<Action>, id: CallId, t: Trade, r: Request)
    requires Inv(s) && Retrying(s, id, t, r) && Run(s, actions).Some?
    ensures forall op :: op in Run(s, actions).value.history && (op.TradeOp? || op.DepositOp?) && op.id == id ==> op in s.history
  {
    if actions != [] {
      var before := actions[..|actions| - 1];
      RetryCommitsNothing(s, before, id, t, r);
      RetryRun(s, before, id, t, r);
      RetryAddsNothing(Run(s, before).value, actions[|actions| - 1], id);
    }
  }

  // ---- Simultaneous calls ----

  /**
   * A call that has looked its key up and gone on can only find out later, at the
   * quote itself, that its own key has settled its own quote: it is refused with
   * AlreadyExecuted, not given a replay.
   */
  lemma LateDuplicateIsRefused(s: State, id: CallId, t: Trade)
    requires Reachable(s) && id in s.calls && s.calls[id].request.TradeRequest?
    requires !Finished(s.calls[id]) && !s.calls[id].phase.AtLookup?
    requires t in s.db.trades && HasKey(t, s.calls[id].request.clientId, s.calls[id].request.key)
    requires t.quoteId == s.calls[id].request.quoteId
    ensures s.calls[id].phase.AtQuoteLock? || s.calls[id].phase.AtQuoteCheck?
    ensures Try(s, id).Wait? || Try(s, id).call.phase in {AtQuoteCheck, Answered(Refused(AlreadyExecuted))}
    ensures s.calls[id].phase.AtQuoteCheck? ==> Try(s, id) == Local(Ended(s.calls[id], Refused(AlreadyExecuted)))
  {
    ReachableKeepsInv(s);
    assert CallInv(s.db, id, s.calls[id]);
    SettledQuoteIsExecuted(s.db, t);
    OwnKeyIsNotElsewhere(s.db.trades, t, s.calls[id].request);
    DuplicateIsAtItsQuote(s.db, id, s.calls[id]);
    DuplicateIsStopped(s, id, s.calls[id]);
  }

  lemma SettledQuoteIsExecuted(db: Database, t: Trade)
    requires TradesSettled(db) && QuotesMatchTrades(db) && t in db.trades
    ensures t.quoteId in db.quotes && db.quotes[t.quoteId].status == EXECUTED
    ensures db.quotes[t.quoteId].clientId == t.clientId
  {
    assert SettledFrom(db, t);
    var i :| 0 <= i < |db.trades| && db.trades[i] == t;
    assert QuoteUsed(db.trades, t.quoteId);
  }

  lemma DuplicateIsAtItsQuote(db: Database, id: CallId, c: Call)
    requires FactsInv(db, id, c) && c.request.TradeRequest? && !Finished(c) && !c.phase.AtLookup?
    requires c.request.quoteId in db.quotes && db.quotes[c.request.quoteId].status == EXECUTED
    requires !KeySettledElsewhere(db.trades, c.request)
    ensures c.phase.AtQuoteLock? || c.phase.AtQuoteCheck?
  {
  }

  lemma DuplicateIsStopped(s: State, id: CallId, c: Call)
    requires FactsInv(s.db, id, c) && (c.phase.AtQuoteLock? || c.phase.AtQuoteCheck?)
    requires c.request.quoteId in s.db.quotes && s.db.quotes[c.request.quoteId].status == EXECUTED
    requires s.db.quotes[c.request.quoteId].clientId == c.request.clientId
    ensures TryQuote(s, id, c).Wait? || TryQuote(s, id, c).call.phase in {AtQuoteCheck, Answered(Refused(AlreadyExecuted))}
    ensures c.phase.AtQuoteCheck? ==> TryQuote(s, id, c) == Local(Ended(c, Refused(AlreadyExecuted)))
  {
  }

  lemma OwnKeyIsNotElsewhere(trades: seq<Trade>, t: Trade, r: Request)
    requires TradesUnique(trades) && t in trades && r.TradeRequest?
    requires HasKey(t, r.clientId, r.key) && t.quoteId == r.quoteId
    ensures !KeySettledElsewhere(trades, r)
  {
    forall u | u in trades && HasKey(u, r.clientId, r.key) ensures u.quoteId == r.quoteId {
      SameKeySameTrade(trades, t, u);
    }
  }

  /** Past its first lookup, and not answered with a replay. */
  ghost predicate BeyondReplay(s: State, id: CallId) {
    && id in s.calls && !s.calls[id].phase.AtLookup?
    && !(s.calls[id].phase.Answered? && s.calls[id].phase.answer.Replayed?)
  }

  lemma StatementsDoNotReplay(s: State, id: CallId)
    requires id in s.calls && 1 <= Position(s.calls[id].phase) <= 12 && Try(s, id).Local?
    ensures var p := Try(s, id).call.phase; !p.AtLookup? && !(p.Answered? && p.answer.Replayed?)
  {
    if Position(s.calls[id].phase) <= 4 {
      EarlyStatementsDoNotReplay(s, id);
    }
  }

  lemma EarlyStatementsDoNotReplay(s: State, id: CallId)
    requires id in s.calls && 1 <= Position(s.calls[id].phase) <= 4 && Try(s, id).Local?
    ensures var p := Try(s, id).call.phase; !p.AtLookup? && !(p.Answered? && p.answer.Replayed?)
  {
  }

  lemma BeyondReplayOwnStep(s: State, id: CallId)
    requires Inv(s) && BeyondReplay(s, id) && Apply(s, Advance(id)).Some?
    ensures BeyondReplay(Apply(s, Advance(id)).value, id)
  {
    if s.calls[id].phase.AtRaceLookup? {
      assert CallInv(s.db, id, s.calls[id]);
      LoserFindsWinner(s, id, s.calls[id]);
    } else {
      OwnStepBeyondReplay(s, id);
    }
  }

  lemma OwnStepBeyondReplay(s: State, id: CallId)
    requires BeyondReplay(s, id) && !s.calls[id].phase.AtRaceLookup? && Apply(s, Advance(id)).Some?
    ensures BeyondReplay(Apply(s, Advance(id)).value, id)
  {
    if Try(s, id).Local? {
      StatementsDoNotReplay(s, id);
    }
  }

  lemma BeyondReplayStep(s: State, id: CallId, action: Action)
    requires Inv(s) && BeyondReplay(s, id) && Apply(s, action).Some?
    ensures BeyondReplay(Apply(s, action).value, id)
  {
    if action == Advance(id) {
      BeyondReplayOwnStep(s, id);
    } else {
      CallAfter(s, action, id);
    }
  }

  /** Only the lookup before the transaction ever replays; the one in the catch block never does. */
  lemma {:induction false} OnlyTheFirstLookupReplays(s: State, id: CallId, actions: seq<Action>)
    requires Inv(s) && BeyondReplay(s, id) && Run(s, actions).Some?
    ensures BeyondReplay(Run(s, actions).value, id)
  {
    if actions != [] {
      var before := actions[..|actions| - 1];
      OnlyTheFirstLookupReplays(s, id, before);
      RunKeepsInv(s, before);
      BeyondReplayStep(Run(s, before).value, id, actions[|actions| - 1]);
    }
  }

  // ---- Over whole runs ----

  ghost predicate SameKey(s: State, u: CallId, v: CallId) {
    && u in s.calls && v in s.calls
    && s.calls[u].request.TradeRequest? && s.calls[v].request.TradeRequest?
    && s.calls[u].request.clientId == s.calls[v].request.clientId
    && s.calls[u].request.key == s.calls[v].request.key
  }

  ghost predicate Succeeded(c: Call) {
    c.phase.Answered? && (c.phase.answer.Created? || c.phase.answer.Replayed?)
  }

  lemma SameKeySameTrade(trades: seq<Trade>, t: Trade, u: Trade)
    requires TradesUnique(trades) && t in trades && u in trades && HasKey(t, u.clientId, u.idempotencyKey)
    ensures t == u
  {
    FoundIsUnique(trades, t);
    FoundIsUnique(trades, u);
  }

  /**
   * Calls of one client with one key that succeed all report the same trade,
   * and at most one of them created it.
   */
  lemma SuccessesAgree(s: State, u: CallId, v: CallId)
    requires Reachable(s) && SameKey(s, u, v) && Succeeded(s.calls[u]) && Succeeded(s.calls[v])
    ensures s.calls[u].phase.answer.trade == s.calls[v].phase.answer.trade
    ensures s.calls[u].phase.answer.Created? && s.calls[v].phase.answer.Created? ==> u == v
  {
    ReachableKeepsInv(s);
    assert CallInv(s.db, u, s.calls[u]) && CallInv(s.db, v, s.calls[v]);
    SameKeySameTrade(s.db.trades, s.calls[u].phase.answer.trade, s.calls[v].phase.answer.trade);
  }

  /** Every committed trade operation left its trade, and no trade is ever removed. */
  lemma {:induction false} OperationsLeaveTrades(db: Database, history: seq<Operation>, i: nat)
    requires Replay(db, history).Some? && i < |history| && history[i].TradeOp?
    ensures exists t :: t in Replay(db, history).value.trades
                     && t.id == history[i].id && t.clientId == history[i].clientId
                     && t.idempotencyKey == history[i].key && t.quoteId == history[i].quoteId
  {
    var n := |history| - 1;
    var before := Replay(db, history[..n]).value;
    var op := history[n];
    var after := Replay(db, history).value;
    if op.TradeOp? {
      TradeEffect(before, op.clientId, op.quoteId, op.key, op.checkedAt, op.id);
    }
    assert before.trades <= after.trades;
    if i == n {
      assert TradeOf(before.quotes[op.quoteId], op.quoteId, op.key, op.id) in after.trades;
    } else {
      OperationsLeaveTrades(db, history[..n], i);
      var t :| t in before.trades && t.id == history[i].id && t.clientId == history[i].clientId
            && t.idempotencyKey == history[i].key && t.quoteId == history[i].quoteId;
      assert t in after.trades;
    }
  }

  lemma CommittedTradesAreOther(before: Database, op: Operation, t: Trade)
    requires op.TradeOp? && Perform(before, op).Some? && t in before.trades
    ensures t.quoteId != op.quoteId && !HasKey(t, op.clientId, op.key)
  {
    TradeEffect(before, op.clientId, op.quoteId, op.key, op.checkedAt, op.id);
    var k :| 0 <= k < |before.trades| && before.trades[k] == t;
  }

  /** Money moves at most once for a key and at most once for a quote, whatever the calls were told. */
  lemma {:induction false} SettledOnce(db: Database, history: seq<Operation>, i: nat, j: nat)
    requires Replay(db, history).Some? && i < j < |history| && history[i].TradeOp? && history[j].TradeOp?
    ensures history[i].clientId != history[j].clientId || history[i].key != history[j].key
    ensures history[i].quoteId != history[j].quoteId
  {
    var n := |history| - 1;
    if j < n {
      SettledOnce(db, history[..n], i, j);
    } else {
      OperationsLeaveTrades(db, history[..n], i);
      var t :| t in Replay(db, history[..n]).value.trades && t.id == history[i].id && t.clientId == history[i].clientId
            && t.idempotencyKey == history[i].key && t.quoteId == history[i].quoteId;
      CommittedTradesAreOther(Replay(db, history[..n]).value, history[n], t);
    }
  }

  /** In no run does one key of a client, or one quote, move money twice. */
  lemma KeyMovesMoneyOnce(db: Database, now: int, errorsWrapped: bool, actions: seq<Action>, i: nat, j: nat)
    requires Consistent(db) && Run(Start(db, now, errorsWrapped), actions).Some?
    requires var history := Run(Start(db, now, errorsWrapped), actions).value.history;
      i < j < |history| && history[i].TradeOp? && history[j].TradeOp?
    ensures var history := Run(Start(db, now, errorsWrapped), actions).value.history;
      && (history[i].clientId != history[j].clientId || history[i].key != history[j].key)
      && history[i].quoteId != history[j].quoteId
  {
    Serializable(db, now, errorsWrapped, actions);
    SettledOnce(db, Run(Start(db, now, errorsWrapped), actions).value.history, i, j);
  }
}
