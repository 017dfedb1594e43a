/** Every call has a bounded number of statements left, and what follows for getting to an answer. */
module Completion {
  import opened Schema
  import opened Settlement
  import opened LedgerInvariant
  import opened Protocol
  import opened ProtocolInvariant
  import opened ProtocolRuns
  import opened Runs
  import opened Deadlock

  // ---- Statements left ----

  /** The most statements the call can still run, counting rows of a statement one by one. */
  function Remaining(c: Call): nat {
    match c.phase
    case AtLookup => 15
    case AtQuoteLock => 14
    case AtQuoteCheck => 13
    case AtRowInsert(next) => 12 - next
    case AtRowLock(next) => 10 - next
    case AtDebit => 8
    case AtDebitEntry => 7
    case AtCredit => 6
    case AtCreditEntry => 5
    case AtTradeInsert => 4
    case AtKeyIndex => 3
    case AtQuoteFlip => 2
    case AtCommit => 1
    case AtRaceLookup => 1
    case Answered(_) => 0
  }

  lemma EarlyStatementIsProgress(s: State, id: CallId)
    requires id in s.calls && Position(s.calls[id].phase) <= 4 && Try(s, id).Local?
    ensures Remaining(Try(s, id).call) < Remaining(s.calls[id])
  {
  }

  lemma StatementIsProgress(s: State, id: CallId)
    requires id in s.calls && !Finished(s.calls[id]) && Try(s, id).Local?
    ensures Remaining(Try(s, id).call) < Remaining(s.calls[id])
  {
    if Position(s.calls[id].phase) <= 4 { EarlyStatementIsProgress(s, id); }
    else if Position(s.calls[id].phase) <= 8 { MovementIsProgress(s, id); }
  }

  lemma MovementIsProgress(s: State, id: CallId)
    requires id in s.calls && 5 <= Position(s.calls[id].phase) <= 8 && Try(s, id).Local?
    ensures Remaining(Try(s, id).call) < Remaining(s.calls[id])
  {
  }

  lemma AdvanceIsProgress(s: State, id: CallId)
    requires Apply(s, Advance(id)).Some?
    ensures id in Apply(s, Advance(id)).value.calls
    ensures Remaining(Apply(s, Advance(id)).value.calls[id]) < Remaining(s.calls[id])
    ensures forall w :: w in s.calls && w != id ==> w in Apply(s, Advance(id)).value.calls && Apply(s, Advance(id)).value.calls[w] == s.calls[w]
    ensures Apply(s, Advance(id)).value.calls.Keys == s.calls.Keys
  {
    AdvanceEffect(s, id);
    if Try(s, id).Local? { StatementIsProgress(s, id); }
  }

  /** How many of the actions are statements of this call. */
  function OwnStatements(actions: seq<Action>, id: CallId): nat {
    if actions == [] then 0
    else OwnStatements(actions[..|actions| - 1], id) + if actions[|actions| - 1] == Advance(id) then 1 else 0
  }

  lemma OthersTakeNothing(s: State, action: Action, id: CallId)
    requires Apply(s, action).Some? && id in s.calls && action != Advance(id)
    ensures id in Apply(s, action).value.calls && Remaining(Apply(s, action).value.calls[id]) <= Remaining(s.calls[id])
  {
    CallAfter(s, action, id);
  }

  /** In any run a call takes at most the statements it has left, so never more than 15 from its beginning. */
  lemma {:induction false} OwnStatementsAreBounded(s: State, actions: seq<Action>, id: CallId)
    requires id in s.calls && Run(s, actions).Some?
    ensures id in Run(s, actions).value.calls
    ensures OwnStatements(actions, id) + Remaining(Run(s, actions).value.calls[id]) <= Remaining(s.calls[id]) <= 15
  {
    if actions != [] {
      var before, last := actions[..|actions| - 1], actions[|actions| - 1];
      OwnStatementsAreBounded(s, before, id);
      if last == Advance(id) {
        AdvanceIsProgress(Run(s, before).value, id);
      } else {
        OthersTakeNothing(Run(s, before).value, last, id);
      }
    }
  }

  // ---- With every row there, everybody gets an answer ----

  /** The balance rows the call touches, or will touch once it has its quote, are committed. */
  predicate TouchesExisting(db: Database, r: Request) {
    match r
    case TradeRequest(_, quoteId, _) => quoteId in db.quotes ==> Both(db.balances, db.quotes[quoteId])
    case DepositRequest(leg) => leg.account in db.balances
  }

  predicate Both(balances: map<Account, int>, q: Quote) {
    DebitLeg(q).account in balances && CreditLeg(q).account in balances
  }

  ghost predicate RowsExist(s: State) {
    forall id :: id in s.calls ==> TouchesExisting(s.db, s.calls[id].request)
  }

  lemma NothingInserted(db: Database, id: CallId, c: Call)
    requires CallInv(db, id, c) && TouchesExisting(db, c.request) && c.phase.AtRowInsert?
    ensures c.writes == map[]
  {
    var accounts := Accounts(c.request, c.quote);
    assert forall a :: a in accounts ==> a in db.balances;
    assert forall a :: a in accounts[..c.phase.next] ==> a in accounts;
  }

  lemma TouchesStill(db: Database, c: Call, r: Request)
    requires TouchesExisting(db, r)
    ensures TouchesExisting(Published(db, c), r)
  {
  }

  lemma AdvanceKeepsRows(s: State, id: CallId)
    requires RowsExist(s) && Apply(s, Advance(id)).Some?
    ensures RowsExist(Apply(s, Advance(id)).value)
  {
    var s' := Apply(s, Advance(id)).value;
    AdvanceIsProgress(s, id);
    SameRequestAfter(s, id);
    DatabaseAfter(s, Advance(id));
    forall w | w in s'.calls ensures TouchesExisting(s'.db, s'.calls[w].request) {
      assert TouchesExisting(s.db, s.calls[w].request);
      TouchesStill(s.db, s.calls[id], s.calls[w].request);
    }
  }

  lemma SameRequestAfter(s: State, id: CallId)
    requires Apply(s, Advance(id)).Some?
    ensures Apply(s, Advance(id)).value.calls[id].request == s.calls[id].request
  {
    AdvanceEffect(s, id);
  }

  lemma SomeoneSteps(s: State) returns (t: CallId)
    requires Inv(s) && RowsExist(s) && exists u :: u in s.calls && Live(s.calls[u])
    ensures t in s.calls && Live(s.calls[t]) && Apply(s, Advance(t)).Some?
  {
    forall u | u in s.calls && s.calls[u].phase.AtRowInsert? ensures s.calls[u].writes == map[] {
      assert CallInv(s.db, u, s.calls[u]);
      NothingInserted(s.db, u, s.calls[u]);
    }
    ExistingRowsNeverDeadlock(s);
    t :| t in s.calls && Live(s.calls[t]) && Apply(s, Advance(t)).Some?;
  }

  /** The statements left to all calls with ids below n. */
  function TotalBelow(calls: map<CallId, Call>, n: nat): nat {
    if n == 0 then 0 else TotalBelow(calls, n - 1) + if n - 1 in calls then Remaining(calls[n - 1]) else 0
  }

  lemma {:induction false} OneFewer(calls: map<CallId, Call>, after: map<CallId, Call>, id: CallId, n: nat)
    requires calls.Keys == after.Keys && id in calls && Remaining(after[id]) < Remaining(calls[id])
    requires forall w :: w in calls && w != id ==> after[w] == calls[w]
    ensures id < n ==> TotalBelow(after, n) < TotalBelow(calls, n)
    ensures id >= n ==> TotalBelow(after, n) == TotalBelow(calls, n)
  {
    if n > 0 {
      OneFewer(calls, after, id, n - 1);
    }
  }

  ghost predicate AllAnswered(s: State) {
    forall id :: id in s.calls ==> Finished(s.calls[id])
  }

  predicate OnlyAdvances(actions: seq<Action>) {
    forall k :: 0 <= k < |actions| ==> actions[k].Advance?
  }

  lemma {:induction false} AnswerAll(start: State, actions: seq<Action>, s: State, n: nat) returns (longer: seq<Action>)
    requires Inv(s) && RowsExist(s) && Run(start, actions) == Some(s) && OnlyAdvances(actions)
    requires forall id :: id in s.calls ==> id < n
    ensures OnlyAdvances(longer) && Run(start, longer).Some? && AllAnswered(Run(start, longer).value)
    ensures |longer| <= |actions| + TotalBelow(s.calls, n)
    decreases TotalBelow(s.calls, n)
  {
    if AllAnswered(s) {
      longer := actions;
    } else {
      var t := SomeoneSteps(s);
      var s' := Apply(s, Advance(t)).value;
      RunOne(start, actions, Advance(t));
      AdvanceStep(s, t);
      AdvanceKeepsRows(s, t);
      AdvanceIsProgress(s, t);
      OneFewer(s.calls, s'.calls, t, n);
      longer := AnswerAll(start, actions + [Advance(t)], s', n);
    }
  }

  /**
   * When the balance rows touched are all there, letting the calls run, in some order,
   * answers every one of them: nobody has to be cut off.
   */
  lemma EverybodyIsAnswered(s: State) returns (actions: seq<Action>)
    requires Reachable(s) && RowsExist(s)
    ensures OnlyAdvances(actions) && Run(s, actions).Some? && AllAnswered(Run(s, actions).value)
  {
    ReachableKeepsInv(s);
    var n := UnusedId(s.calls.Keys);
    actions := AnswerAll(s, [], s, n);
  }

  // ---- A trade nobody is in the way of ----

  lemma NobodyToWaitFor(s: State, id: CallId)
    requires id in s.calls && NobodyElseHolds(s, id)
    ensures !Try(s, id).Wait?
  {
    if Try(s, id).Wait? {
      WaitHasHolder(s, id);
    }
  }

  /** Past its check, on a database on which all of it would commit. */
  ghost predicate Bound(s: State, id: CallId) {
    && id in s.calls && s.calls[id].request.TradeRequest? && AfterCheck(s.calls[id].phase)
    && Alone(s, id, s.calls[id]).Committed?
  }

  lemma KeyIsFree(s: State, id: CallId, c: Call)
    requires QuotesMatchTrades(s.db) && CallInv(s.db, id, c) && c.phase.AtKeyIndex? && Alone(s, id, c).Committed?
    ensures FindByIdempotencyKey(s.db.trades, c.request.clientId, c.request.key).None?
  {
    if FindByIdempotencyKey(s.db.trades, c.request.clientId, c.request.key).Some? {
      KeyRefusal(s.db, id, c);
    }
  }

  /** The transaction goes on with what it has. */
  predicate GoesOn(c: Call, c': Call) {
    AfterCheck(c'.phase) && (c'.request, c'.checkedAt) == (c.request, c.checkedAt)
  }

  lemma RowStatementGoesOn(s: State, id: CallId)
    requires id in s.calls && 3 <= Position(s.calls[id].phase) <= 4 && Try(s, id).Local?
    ensures GoesOn(s.calls[id], Try(s, id).call)
  {
  }

  lemma DebitGoesOn(s: State, id: CallId, c: Call)
    requires Position(c.phase) == 5 || Position(c.phase) == 6
    requires TryDebit(s, id, c).Local? && !Finished(TryDebit(s, id, c).call)
    ensures GoesOn(c, TryDebit(s, id, c).call)
  {
  }

  lemma CreditGoesOn(s: State, id: CallId, c: Call)
    requires Position(c.phase) == 7 || Position(c.phase) == 8
    requires TryCredit(s, id, c).Local? && !Finished(TryCredit(s, id, c).call)
    ensures GoesOn(c, TryCredit(s, id, c).call)
  {
  }

  lemma TradeGoesOn(s: State, id: CallId, c: Call)
    requires 9 <= Position(c.phase) <= 11 && TryTrade(s, id, c).Local?
    requires !QuoteUsed(s.db.trades, c.request.quoteId)
    requires c.phase.AtKeyIndex? ==> FindByIdempotencyKey(s.db.trades, c.request.clientId, c.request.key).None?
    ensures GoesOn(c, TryTrade(s, id, c).call)
  {
  }

  lemma MoneyIsNotRefused(s: State, id: CallId, c: Call)
    requires CallInv(s.db, id, c) && c.request.TradeRequest? && 5 <= Position(c.phase) <= 8 && Alone(s, id, c).Committed?
    ensures Position(c.phase) <= 6 ==> TryDebit(s, id, c).Local? && !Finished(TryDebit(s, id, c).call)
    ensures Position(c.phase) >= 7 ==> TryCredit(s, id, c).Local? && !Finished(TryCredit(s, id, c).call)
  {
    if c.phase.AtDebit? && Finished(TryDebit(s, id, c).call) { DebitRefusal(s, id, c); }
    if c.phase.AtCredit? && Finished(TryCredit(s, id, c).call) { CreditRefusal(s, id, c); }
  }

  lemma BoundMoneyGoesOn(s: State, id: CallId, c: Call)
    requires CallInv(s.db, id, c) && c.request.TradeRequest? && 5 <= Position(c.phase) <= 8 && Alone(s, id, c).Committed?
    requires id in s.calls && s.calls[id] == c
    ensures Try(s, id).Local? && GoesOn(c, Try(s, id).call)
  {
    MoneyIsNotRefused(s, id, c);
    if Position(c.phase) <= 6 { DebitGoesOn(s, id, c); } else { CreditGoesOn(s, id, c); }
  }

  lemma BoundTradeGoesOn(s: State, id: CallId, c: Call)
    requires QuotesMatchTrades(s.db) && CallInv(s.db, id, c) && 9 <= Position(c.phase) <= 11 && Alone(s, id, c).Committed?
    requires id in s.calls && s.calls[id] == c && Try(s, id).Local?
    ensures GoesOn(c, Try(s, id).call)
  {
    QuoteIndexIsFree(s.db, id, c);
    if c.phase.AtKeyIndex? { KeyIsFree(s, id, c); }
    TradeGoesOn(s, id, c);
  }

  lemma BoundStatement(s: State, id: CallId, c: Call)
    requires QuotesMatchTrades(s.db) && CallInv(s.db, id, c) && Bound(s, id) && s.calls[id] == c
    requires !c.phase.AtCommit? && Try(s, id).Local?
    ensures GoesOn(c, Try(s, id).call)
  {
    if Position(c.phase) <= 4 { RowStatementGoesOn(s, id); }
    else if Position(c.phase) <= 8 { BoundMoneyGoesOn(s, id, c); }
    else { BoundTradeGoesOn(s, id, c); }
  }

  lemma TriesLocally(s: State, id: CallId)
    requires id in s.calls && AfterCheck(s.calls[id].phase) && !s.calls[id].phase.AtCommit? && !Try(s, id).Wait?
    ensures Try(s, id).Local?
  {
  }

  lemma StaysBound(s: State, id: CallId, c': Call)
    requires Bound(s, id) && NobodyElseHolds(s, id) && GoesOn(s.calls[id], c')
    ensures Bound(With(s, id, c'), id) && NobodyElseHolds(With(s, id, c'), id)
  {
  }

  lemma BoundTry(s: State, id: CallId) returns (c': Call)
    requires QuotesMatchTrades(s.db) && Bound(s, id) && NobodyElseHolds(s, id) && !s.calls[id].phase.AtCommit?
    requires CallInv(s.db, id, s.calls[id])
    ensures Try(s, id) == Local(c') && GoesOn(s.calls[id], c')
  {
    NobodyToWaitFor(s, id);
    TriesLocally(s, id);
    c' := Try(s, id).call;
    BoundStatement(s, id, s.calls[id]);
  }

  lemma StepTaken(start: State, actions: seq<Action>, s: State, id: CallId, c': Call)
    requires Inv(s) && id in s.calls && !Finished(s.calls[id]) && Try(s, id) == Local(c') && Run(start, actions) == Some(s)
    ensures Inv(With(s, id, c')) && Remaining(c') < Remaining(s.calls[id])
    ensures Run(start, actions + [Advance(id)]) == Some(With(s, id, c'))
  {
    StatementIsProgress(s, id);
    LocalStep(s, id);
    Statement(start, actions, s, id, c');
  }

  lemma CommitExecutes(s: State, id: CallId)
    requires EveryCall(s.db, s.calls) && id in s.calls && s.calls[id].request.TradeRequest? && s.calls[id].phase.AtCommit?
    ensures Apply(s, Advance(id)).Some? && Executes(s, Apply(s, Advance(id)).value, id)
  {
    assert CallInv(s.db, id, s.calls[id]);
  }

  lemma BoundCommit(start: State, actions: seq<Action>, s: State, id: CallId)
    requires Inv(s) && Bound(s, id) && s.calls[id].phase.AtCommit? && Run(start, actions) == Some(s)
    ensures Run(start, actions + [Advance(id)]).Some?
    ensures Executes(s, Run(start, actions + [Advance(id)]).value, id)
  {
    CommitExecutes(s, id);
    RunOne(start, actions, Advance(id));
  }

  /** Between the two states the call's trade has been committed, and nothing else. */
  ghost predicate Executes(s: State, after: State, id: CallId)
    requires id in s.calls
  {
    var c := s.calls[id];
    && c.request.TradeRequest?
    && after.history == s.history + [TradeOp(c.request.clientId, c.request.quoteId, c.request.key, c.checkedAt, id)]
    && c.request.quoteId in after.db.quotes && after.db.quotes[c.request.quoteId].status == EXECUTED
  }

  lemma SameExecution(s: State, c': Call, after: State, id: CallId)
    requires id in s.calls && GoesOn(s.calls[id], c') && Executes(With(s, id, c'), after, id)
    ensures Executes(s, after, id)
  {
  }

  lemma BoundGoesOn(start: State, actions: seq<Action>, s: State, id: CallId) returns (c': Call)
    requires Inv(s) && Bound(s, id) && NobodyElseHolds(s, id) && Run(start, actions) == Some(s) && !s.calls[id].phase.AtCommit?
    ensures GoesOn(s.calls[id], c') && Remaining(c') < Remaining(s.calls[id])
    ensures Inv(With(s, id, c')) && Bound(With(s, id, c'), id) && NobodyElseHolds(With(s, id, c'), id)
    ensures Run(start, actions + [Advance(id)]) == Some(With(s, id, c'))
  {
    assert CallInv(s.db, id, s.calls[id]);
    c' := BoundTry(s, id);
    StepTaken(start, actions, s, id, c');
    StaysBound(s, id, c');
  }

  /** Left alone, a call past its check that would commit does. */
  lemma {:induction false} RunToCommit(start: State, actions: seq<Action>, s: State, id: CallId) returns (longer: seq<Action>)
    requires Inv(s) && Bound(s, id) && NobodyElseHolds(s, id) && Run(start, actions) == Some(s)
    ensures Run(start, longer).Some? && Executes(s, Run(start, longer).value, id)
    decreases Remaining(s.calls[id])
  {
    if s.calls[id].phase.AtCommit? {
      BoundCommit(start, actions, s, id);
      longer := actions + [Advance(id)];
    } else {
      var c' := BoundGoesOn(start, actions, s, id);
      longer := RunToCommit(start, actions + [Advance(id)], With(s, id, c'), id);
      SameExecution(s, c', Run(start, longer).value, id);
    }
  }

  /** Some run, in which nothing else is committed, executes such a call's quote, whoever is in its way. */
  lemma BoundCallsCanCommit(s: State, id: CallId) returns (actions: seq<Action>)
    requires Inv(s) && Bound(s, id)
    ensures Run(s, actions).Some? && Executes(s, Run(s, actions).value, id)
  {
    FinishedHoldNothing(s);
    var alone, s' := CutOff(s, [], s, id, s.calls.Keys - {id});
    RunKeepsInv(s, alone);
    assert Bound(s', id);
    actions := RunToCommit(s, alone, s', id);
  }
}
