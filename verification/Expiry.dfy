/**
 * What becomes of a quote once the clock has reached its expiry: only a call that was
 * past its check by then can still execute it, and exactly when it would commit.
 */
module Expiry {
  import opened Schema
  import opened Settlement
  import opened LedgerInvariant
  import opened Protocol
  import opened ProtocolInvariant
  import opened ProtocolRuns
  import opened Runs
  import opened Completion
  import opened QuoteMapper
  import opened Strings

  // ---- Expiry is final once nobody is past the check ----

  /** The quote is ACTIVE, the clock has reached its expiry, and no call is past its check on it. */
  ghost predicate Lapsed(s: State, quoteId: QuoteId) {
    && quoteId in s.db.quotes && s.db.quotes[quoteId].status == ACTIVE
    && s.clock >= s.db.quotes[quoteId].expiresAt
    && forall id :: id in s.calls && s.calls[id].request.TradeRequest? && s.calls[id].request.quoteId == quoteId ==>
         !AfterCheck(s.calls[id].phase)
  }

  lemma LapsedStatement(s: State, quoteId: QuoteId, id: CallId, c: Call)
    requires CallInv(s.db, id, c) && id in s.calls && s.calls[id] == c && Try(s, id).Local?
    requires c.request.TradeRequest? && c.request.quoteId == quoteId && !AfterCheck(c.phase)
    requires quoteId in s.db.quotes && s.clock >= s.db.quotes[quoteId].expiresAt
    ensures !AfterCheck(Try(s, id).call.phase)
  {
  }

  lemma LapsedCalls(s: State, quoteId: QuoteId, id: CallId)
    requires EveryCall(s.db, s.calls) && Lapsed(s, quoteId) && Apply(s, Advance(id)).Some?
    ensures var c' := Apply(s, Advance(id)).value.calls[id];
      c'.request.TradeRequest? && c'.request.quoteId == quoteId ==> !AfterCheck(c'.phase)
  {
    var c := s.calls[id];
    assert CallInv(s.db, id, c);
    AdvanceEffect(s, id);
    if Try(s, id).Local? {
      if c.request.TradeRequest? && c.request.quoteId == quoteId { LapsedStatement(s, quoteId, id, c); }
      SameRequest(s, id);
    }
  }

  lemma SameRequest(s: State, id: CallId)
    requires id in s.calls && Try(s, id).Local?
    ensures Try(s, id).call.request == s.calls[id].request
  {
  }

  lemma CommitSparesQuote(db: Database, c: Call, quoteId: QuoteId)
    requires quoteId in db.quotes && (c.request.TradeRequest? ==> c.request.quoteId != quoteId)
    ensures quoteId in Published(db, c).quotes && Published(db, c).quotes[quoteId] == db.quotes[quoteId]
  {
  }

  lemma LapsedDatabase(s: State, quoteId: QuoteId, action: Action)
    requires Lapsed(s, quoteId) && Apply(s, action).Some?
    ensures quoteId in Apply(s, action).value.db.quotes
    ensures Apply(s, action).value.db.quotes[quoteId] == s.db.quotes[quoteId]
  {
    DatabaseAfter(s, action);
    if Commits(s, action) {
      CommitSparesQuote(s.db, s.calls[action.id], quoteId);
    }
  }

  lemma LapsedOtherCall(s: State, quoteId: QuoteId, action: Action, id: CallId)
    requires Lapsed(s, quoteId) && Apply(s, action).Some? && id in Apply(s, action).value.calls && action != Advance(id)
    ensures var c := Apply(s, action).value.calls[id];
      c.request.TradeRequest? && c.request.quoteId == quoteId ==> !AfterCheck(c.phase)
  {
    if id in s.calls {
      CallAfter(s, action, id);
    }
  }

  lemma LapsedStep(s: State, quoteId: QuoteId, action: Action)
    requires Inv(s) && Lapsed(s, quoteId) && Apply(s, action).Some?
    ensures Lapsed(Apply(s, action).value, quoteId)
  {
    var s' := Apply(s, action).value;
    LapsedDatabase(s, quoteId, action);
    forall id | id in s'.calls && s'.calls[id].request.TradeRequest? && s'.calls[id].request.quoteId == quoteId
      ensures !AfterCheck(s'.calls[id].phase)
    {
      if action == Advance(id) { LapsedCalls(s, quoteId, id); } else { LapsedOtherCall(s, quoteId, action, id); }
    }
    assert s'.clock >= s.clock;
  }

  /** Once a quote has lapsed, no later run executes it. */
  lemma {:induction false} LapsedForGood(s: State, quoteId: QuoteId, actions: seq<Action>)
    requires Inv(s) && Lapsed(s, quoteId) && Run(s, actions).Some?
    ensures Lapsed(Run(s, actions).value, quoteId)
  {
    if actions != [] {
      var before := actions[..|actions| - 1];
      LapsedForGood(s, quoteId, before);
      RunKeepsInv(s, before);
      LapsedStep(Run(s, before).value, quoteId, actions[|actions| - 1]);
    }
  }

  // ---- Exactly when an expired quote can still be executed ----

  predicate OnQuote(c: Call, quoteId: QuoteId) {
    c.request.TradeRequest? && c.request.quoteId == quoteId
  }

  /** Stored, not executed, and past its time. */
  predicate Overdue(s: State, quoteId: QuoteId) {
    && quoteId in s.db.quotes && s.db.quotes[quoteId].status == ACTIVE
    && s.clock >= s.db.quotes[quoteId].expiresAt
  }

  /** Whoever is past the check on the quote now was past it then, at the same time of checking. */
  ghost predicate PassedBefore(s: State, later: State, quoteId: QuoteId) {
    forall id :: id in later.calls && OnQuote(later.calls[id], quoteId) && AfterCheck(later.calls[id].phase) ==>
      && id in s.calls && AfterCheck(s.calls[id].phase)
      && (s.calls[id].request, s.calls[id].checkedAt) == (later.calls[id].request, later.calls[id].checkedAt)
  }

  lemma EarlyCheckStays(s: State, id: CallId)
    requires id in s.calls && 3 <= Position(s.calls[id].phase) <= 6 && Try(s, id).Local?
    ensures AfterCheck(Try(s, id).call.phase) ==> GoesOn(s.calls[id], Try(s, id).call)
  {
  }

  lemma CheckStays(s: State, id: CallId)
    requires id in s.calls && AfterCheck(s.calls[id].phase) && Try(s, id).Local?
    ensures AfterCheck(Try(s, id).call.phase) ==> GoesOn(s.calls[id], Try(s, id).call)
  {
    if Position(s.calls[id].phase) <= 6 { EarlyCheckStays(s, id); }
  }

  lemma OwnStepPassedBefore(s: State, quoteId: QuoteId, id: CallId)
    requires EveryCall(s.db, s.calls) && Overdue(s, quoteId) && Apply(s, Advance(id)).Some?
    ensures var c, c' := s.calls[id], Apply(s, Advance(id)).value.calls[id];
      OnQuote(c', quoteId) && AfterCheck(c'.phase) ==> AfterCheck(c.phase) && GoesOn(c, c')
  {
    var c := s.calls[id];
    assert CallInv(s.db, id, c);
    AdvanceEffect(s, id);
    if Try(s, id).Local? {
      SameRequest(s, id);
      if AfterCheck(c.phase) { CheckStays(s, id); }
      else if OnQuote(c, quoteId) { LapsedStatement(s, quoteId, id, c); }
    }
  }

  lemma OtherCallPassedBefore(s: State, action: Action, id: CallId)
    requires Apply(s, action).Some? && id in Apply(s, action).value.calls && action != Advance(id)
    requires var c' := Apply(s, action).value.calls[id]; c'.request.TradeRequest? && AfterCheck(c'.phase)
    ensures id in s.calls && s.calls[id] == Apply(s, action).value.calls[id]
  {
    if id in s.calls {
      CallAfter(s, action, id);
    }
  }

  lemma StepPassedBefore(s: State, later: State, quoteId: QuoteId, action: Action)
    requires EveryCall(later.db, later.calls) && Overdue(later, quoteId)
    requires PassedBefore(s, later, quoteId) && Apply(later, action).Some?
    ensures PassedBefore(s, Apply(later, action).value, quoteId)
  {
    var next := Apply(later, action).value;
    forall id | id in next.calls && OnQuote(next.calls[id], quoteId) && AfterCheck(next.calls[id].phase)
      ensures id in s.calls && AfterCheck(s.calls[id].phase)
      ensures (s.calls[id].request, s.calls[id].checkedAt) == (next.calls[id].request, next.calls[id].checkedAt)
    {
      if action == Advance(id) {
        OwnStepPassedBefore(later, quoteId, id);
      } else {
        OtherCallPassedBefore(later, action, id);
      }
    }
  }

  /** A call on the quote, past its check, that would commit if it were left alone. */
  ghost predicate SomeoneBound(s: State, quoteId: QuoteId) {
    exists id :: Bound(s, id) && s.calls[id].request.quoteId == quoteId
  }

  lemma CommitterWasBound(s: State, later: State, quoteId: QuoteId, id: CallId)
    requires QuotesMatchTrades(later.db) && EveryCall(later.db, later.calls) && later.db == s.db
    requires PassedBefore(s, later, quoteId) && id in later.calls
    requires OnQuote(later.calls[id], quoteId) && later.calls[id].phase.AtCommit?
    ensures Bound(s, id) && s.calls[id].request.quoteId == quoteId
  {
    assert CallInv(later.db, id, later.calls[id]);
    CommitIsAtomic(later.db, id, later.calls[id]);
  }

  lemma ExecutingStep(s: State, later: State, quoteId: QuoteId, action: Action)
    requires QuotesMatchTrades(later.db) && EveryCall(later.db, later.calls) && later.db == s.db
    requires Overdue(later, quoteId) && PassedBefore(s, later, quoteId) && Apply(later, action).Some?
    requires quoteId in Apply(later, action).value.db.quotes
    requires Apply(later, action).value.db.quotes[quoteId].status == EXECUTED
    ensures SomeoneBound(s, quoteId)
  {
    DatabaseAfter(later, action);
    CommitterOfQuote(later, action, quoteId);
    CommitterWasBound(s, later, quoteId, action.id);
  }

  lemma CommitterOfQuote(s: State, action: Action, quoteId: QuoteId)
    requires Overdue(s, quoteId) && Apply(s, action).Some? && quoteId in Apply(s, action).value.db.quotes
    requires Apply(s, action).value.db.quotes[quoteId].status == EXECUTED
    ensures Commits(s, action) && OnQuote(s.calls[action.id], quoteId)
  {
    DatabaseAfter(s, action);
  }

  ghost predicate NothingCommitted(s: State, later: State, quoteId: QuoteId) {
    later.history == s.history && later.db == s.db && later.clock >= s.clock && PassedBefore(s, later, quoteId)
  }

  ghost predicate OneCommitted(s: State, later: State, quoteId: QuoteId) {
    && |later.history| == |s.history| + 1
    && (quoteId in later.db.quotes && later.db.quotes[quoteId].status == EXECUTED ==> SomeoneBound(s, quoteId))
  }

  lemma ClockGoesOn(s: State, action: Action)
    requires Apply(s, action).Some?
    ensures Apply(s, action).value.clock >= s.clock
  {
  }

  lemma StepCommitsAtMostOne(s: State, later: State, quoteId: QuoteId, action: Action)
    requires Overdue(s, quoteId) && Inv(later) && Apply(later, action).Some?
    requires NothingCommitted(s, later, quoteId) || OneCommitted(s, later, quoteId) || |later.history| > |s.history| + 1
    ensures var next := Apply(later, action).value;
      NothingCommitted(s, next, quoteId) || OneCommitted(s, next, quoteId) || |next.history| > |s.history| + 1
  {
    var next := Apply(later, action).value;
    ApplyIsAtomic(later, action);
    ClockGoesOn(later, action);
    if NothingCommitted(s, later, quoteId) {
      StepPassedBefore(s, later, quoteId, action);
      if quoteId in next.db.quotes && next.db.quotes[quoteId].status == EXECUTED {
        ExecutingStep(s, later, quoteId, action);
      }
    }
  }

  lemma {:induction false} RunCommitsAtMostOne(s: State, actions: seq<Action>, quoteId: QuoteId)
    requires Inv(s) && Overdue(s, quoteId) && Run(s, actions).Some?
    ensures var later := Run(s, actions).value;
      NothingCommitted(s, later, quoteId) || OneCommitted(s, later, quoteId) || |later.history| > |s.history| + 1
  {
    if actions != [] {
      var before := actions[..|actions| - 1];
      RunCommitsAtMostOne(s, before, quoteId);
      RunKeepsInv(s, before);
      StepCommitsAtMostOne(s, Run(s, before).value, quoteId, actions[|actions| - 1]);
    }
  }

  /** A run that commits one operation and leaves the quote EXECUTED. */
  ghost predicate OneStepExecutes(s: State, actions: seq<Action>, quoteId: QuoteId) {
    && Run(s, actions).Some? && |Run(s, actions).value.history| == |s.history| + 1
    && quoteId in Run(s, actions).value.db.quotes && Run(s, actions).value.db.quotes[quoteId].status == EXECUTED
  }

  ghost predicate CanStillExecute(s: State, quoteId: QuoteId) {
    exists actions :: OneStepExecutes(s, actions, quoteId)
  }

  /**
   * Once the clock has reached its expiry, an ACTIVE quote can still be executed, with
   * nothing else committed in between, if and only if some call on it is past its
   * check and would commit if all of it ran alone on the committed rows.
   */
  lemma OverdueExecutesExactlyWhen(s: State, quoteId: QuoteId)
    requires Reachable(s) && Overdue(s, quoteId)
    ensures CanStillExecute(s, quoteId) <==> SomeoneBound(s, quoteId)
  {
    ReachableKeepsInv(s);
    if SomeoneBound(s, quoteId) {
      var id :| Bound(s, id) && s.calls[id].request.quoteId == quoteId;
      var actions := BoundCallsCanCommit(s, id);
      assert OneStepExecutes(s, actions, quoteId);
    }
    if CanStillExecute(s, quoteId) {
      var actions :| OneStepExecutes(s, actions, quoteId);
      RunCommitsAtMostOne(s, actions, quoteId);
    }
  }

  // ---- Shown EXPIRED, then EXECUTED ----

  function Later(now: int, expiresAt: int): int {
    if now < expiresAt then expiresAt else now
  }

  lemma BoundQuoteIsActive(s: State, id: CallId)
    requires EveryCall(s.db, s.calls) && Bound(s, id)
    ensures s.calls[id].request.quoteId in s.db.quotes && s.db.quotes[s.calls[id].request.quoteId].status == ACTIVE
  {
    assert CallInv(s.db, id, s.calls[id]);
  }

  lemma Waited(s: State, id: CallId, quoteId: QuoteId, expired: State)
    requires Inv(s) && Bound(s, id) && quoteId == s.calls[id].request.quoteId && quoteId in s.db.quotes
    requires expired == s.(clock := Later(s.clock, s.db.quotes[quoteId].expiresAt))
    ensures Apply(s, Tick(expired.clock)) == Some(expired) && Inv(expired) && Bound(expired, id)
  {
    ApplyKeepsInv(s, Tick(expired.clock));
  }

  /** A read of the quote in the first state says EXPIRED; a run from there executes it, and then a read says so. */
  ghost predicate ExpiredThenExecuted(expired: State, actions: seq<Action>, quoteId: QuoteId) {
    && quoteId in expired.db.quotes && OneStepExecutes(expired, actions, quoteId)
    && ToQuoteResponse(expired.db.quotes[quoteId], expired.clock).status == EXPIRED
    && ToQuoteResponse(Run(expired, actions).value.db.quotes[quoteId], Run(expired, actions).value.clock).status == Stored(EXECUTED)
  }

  lemma ExecutedInOneStep(expired: State, actions: seq<Action>, id: CallId, quoteId: QuoteId)
    requires id in expired.calls && Run(expired, actions).Some? && Executes(expired, Run(expired, actions).value, id)
    requires Overdue(expired, quoteId) && expired.calls[id].request.quoteId == quoteId
    ensures ExpiredThenExecuted(expired, actions, quoteId)
  {
  }

  /**
   * From any state with a call past its check that would commit: let the clock reach
   * the expiry, and a read of the quote says EXPIRED; and from there a run executes it.
   */
  lemma ShownExpiredThenExecuted(s: State, id: CallId) returns (wait: Action, actions: seq<Action>)
    requires Reachable(s) && Bound(s, id)
    ensures Apply(s, wait).Some? && ExpiredThenExecuted(Apply(s, wait).value, actions, s.calls[id].request.quoteId)
  {
    ReachableKeepsInv(s);
    BoundQuoteIsActive(s, id);
    var quoteId := s.calls[id].request.quoteId;
    var expired := s.(clock := Later(s.clock, s.db.quotes[quoteId].expiresAt));
    Waited(s, id, quoteId, expired);
    wait := Tick(expired.clock);
    actions := BoundCallsCanCommit(expired, id);
    ExecutedInOneStep(expired, actions, id, quoteId);
  }

  lemma ReachedBy(db: Database, now: int, errorsWrapped: bool, actions: seq<Action>, s: State)
    requires Consistent(db) && Run(Start(db, now, errorsWrapped), actions) == Some(s)
    ensures Reachable(s)
  {
  }

  lemma BeginAlone(db: Database, now: int, errorsWrapped: bool, id: CallId, clientId: ClientId, quoteId: QuoteId, rawKey: string)
    requires !IdUsed(db, id)
    ensures var start, r := Start(db, now, errorsWrapped), TradeRequest(clientId, quoteId, Trim(rawKey));
      Run(start, [] + [BeginTrade(id, clientId, quoteId, rawKey)]) == Some(With(start, id, NewCall(r, AtLookup)))
  {
    RunOne(Start(db, now, errorsWrapped), [], BeginTrade(id, clientId, quoteId, rawKey));
  }

  /** Four actions take a trade that would commit to just past its check. */
  lemma CheckedTradeIsBound(db: Database, now: int, errorsWrapped: bool, id: CallId, clientId: ClientId, quoteId: QuoteId, rawKey: string)
    returns (actions: seq<Action>, s: State)
    requires Consistent(db) && !IdUsed(db, id)
    requires ExecuteTrade(db, clientId, quoteId, Trim(rawKey), now, id).Committed?
    ensures Run(Start(db, now, errorsWrapped), actions) == Some(s) && s.db == db && s.clock == now
    ensures Bound(s, id) && s.calls[id].request == TradeRequest(clientId, quoteId, Trim(rawKey))
  {
    var start, r := Start(db, now, errorsWrapped), TradeRequest(clientId, quoteId, Trim(rawKey));
    var q := db.quotes[quoteId];
    var begun := With(start, id, NewCall(r, AtLookup));
    BeginAlone(db, now, errorsWrapped, id, clientId, quoteId, rawKey);
    KeyIsUnused(db, clientId, quoteId, Trim(rawKey), now, id);
    var first := [] + [BeginTrade(id, clientId, quoteId, rawKey)];
    LookupAndLock(start, first, begun, id, r, q);
    CheckPassed(start, first + [Advance(id)] + [Advance(id)], begun, id, r, q);
    actions := first + [Advance(id)] + [Advance(id)] + [Advance(id)];
    s := With(begun, id, Checked(r, q, now));
  }

  lemma KeyIsUnused(db: Database, clientId: ClientId, quoteId: QuoteId, key: string, now: int, id: CallId)
    requires ExecuteTrade(db, clientId, quoteId, key, now, id).Committed?
    ensures FindByIdempotencyKey(db.trades, clientId, key) == None && CheckQuote(db, clientId, quoteId, now) == None
  {
    TradeEffect(db, clientId, quoteId, key, now, id);
  }

  /** So every trade that would be executed at once can also be executed after its quote has been shown EXPIRED. */
  lemma EveryTradeCanOutliveItsQuote(db: Database, now: int, errorsWrapped: bool, id: CallId, clientId: ClientId, quoteId: QuoteId, rawKey: string)
    returns (first: seq<Action>, actions: seq<Action>)
    requires Consistent(db) && !IdUsed(db, id)
    requires ExecuteTrade(db, clientId, quoteId, Trim(rawKey), now, id).Committed?
    ensures Run(Start(db, now, errorsWrapped), first).Some?
    ensures ExpiredThenExecuted(Run(Start(db, now, errorsWrapped), first).value, actions, quoteId)
  {
    var checked, s := CheckedTradeIsBound(db, now, errorsWrapped, id, clientId, quoteId, rawKey);
    ReachedBy(db, now, errorsWrapped, checked, s);
    var wait, rest := ShownExpiredThenExecuted(s, id);
    RunOne(Start(db, now, errorsWrapped), checked, wait);
    first, actions := checked + [wait], rest;
  }

  /** In particular a call at its commit executes the quote whatever the clock has come to. */
  lemma CommitIgnoresTheClock(s: State, id: CallId)
    requires Reachable(s) && id in s.calls && s.calls[id].phase.AtCommit? && s.calls[id].request.TradeRequest?
    ensures s.calls[id].request.quoteId in s.db.quotes && s.db.quotes[s.calls[id].request.quoteId].status == ACTIVE
    ensures Apply(s, Advance(id)).Some? && Executes(s, Apply(s, Advance(id)).value, id)
  {
    ReachableKeepsInv(s);
    assert CallInv(s.db, id, s.calls[id]);
    CommitExecutes(s, id);
  }
}
