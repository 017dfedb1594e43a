/**
 * The deadlock that sorting the row locks was meant to rule out: it can happen to a
 * trade exactly when both of its balance rows are still missing as it begins.
 */
module DeadlockWitness {
  import opened Graphs
  import opened Decimals
  import opened Schema
  import opened Settlement
  import opened Protocol
  import opened ProtocolInvariant
  import opened ProtocolRuns
  import opened Runs
  import opened Deadlock
  import opened Lifecycle
  import opened Strings

  /** Nothing in the database refuses the trade before its row inserts, and both of its rows are missing. */
  predicate BothRowsMissing(db: Database, r: Request, now: int)
    requires r.TradeRequest?
  {
    && FindByIdempotencyKey(db.trades, r.clientId, r.key) == None
    && CheckQuote(db, r.clientId, r.quoteId, now) == None
    && var q := db.quotes[r.quoteId];
      && q.baseCurrency != q.quoteCurrency
      && DebitLeg(q).account !in db.balances && CreditLeg(q).account !in db.balances
  }

  /** A trade call whose first row insert has gone through. */
  function BetweenInserts(r: Request, q: Quote, now: int): Call
    requires r.TradeRequest? && q.baseCurrency != q.quoteCurrency
  {
    CallRecord(r, AtRowInsert(1), Some(q), now, map[DebitLeg(q).account := 0], [], None, false,
               {QuoteLock(r.quoteId), RowLock(DebitLeg(q).account)})
  }

  /** Four undisturbed statements take a new trade call to just after its first row insert. */
  lemma FourStatements(start: State, actions: seq<Action>, id: CallId, r: Request)
    requires Run(start, actions).Some?
    requires var s := Run(start, actions).value;
      && JustBegun(s, id, r) && BothRowsMissing(s.db, r, s.clock)
      && var q := s.db.quotes[r.quoteId];
        !HeldByOther(s, id, QuoteLock(r.quoteId)) && !HeldByOther(s, id, RowLock(DebitLeg(q).account))
    ensures var s := Run(start, actions).value;
      Run(start, actions + [Advance(id)] + [Advance(id)] + [Advance(id)] + [Advance(id)])
        == Some(With(s, id, BetweenInserts(r, s.db.quotes[r.quoteId], s.clock)))
  {
    var s := Run(start, actions).value;
    var q := s.db.quotes[r.quoteId];
    LookupAndLock(start, actions, s, id, r, q);
    var two := actions + [Advance(id)] + [Advance(id)];
    CheckPassed(start, two, s, id, r, q);
    HoldersUnchanged(s, id, Checked(r, q, s.clock), RowLock(DebitLeg(q).account));
    LastStatement(start, two + [Advance(id)], s, id, Checked(r, q, s.clock), q);
  }

  lemma LastStatement(start: State, actions: seq<Action>, s: State, id: CallId, c: Call, q: Quote)
    requires Run(start, actions) == Some(With(s, id, c)) && c.request.TradeRequest? && q.baseCurrency != q.quoteCurrency
    requires c == CallRecord(c.request, AtRowInsert(0), Some(q), s.clock, map[], [], None, false, {QuoteLock(c.request.quoteId)})
    requires DebitLeg(q).account !in s.db.balances && !HeldByOther(With(s, id, c), id, RowLock(DebitLeg(q).account))
    ensures Run(start, actions + [Advance(id)]) == Some(With(s, id, BetweenInserts(c.request, q, s.clock)))
  {
    FirstInsert(With(s, id, c), id, q);
    Statement(start, actions, With(s, id, c), id, BetweenInserts(c.request, q, s.clock));
    assert With(With(s, id, c), id, BetweenInserts(c.request, q, s.clock)) == With(s, id, BetweenInserts(c.request, q, s.clock));
  }

  lemma FirstInsert(s: State, id: CallId, q: Quote)
    requires id in s.calls && s.calls[id].request.TradeRequest? && q.baseCurrency != q.quoteCurrency
    requires s.calls[id] == CallRecord(s.calls[id].request, AtRowInsert(0), Some(q), s.clock, map[], [], None, false,
                                       {QuoteLock(s.calls[id].request.quoteId)})
    requires DebitLeg(q).account !in s.db.balances && !HeldByOther(s, id, RowLock(DebitLeg(q).account))
    ensures Try(s, id) == Local(BetweenInserts(s.calls[id].request, q, s.clock))
  {
    assert s.calls[id].locks + {RowLock(DebitLeg(q).account)} == {QuoteLock(s.calls[id].request.quoteId), RowLock(DebitLeg(q).account)};
  }

  // ---- Two opposite trades ----

  /** Each trade owes what the other receives. */
  predicate Opposite(p: Quote, q: Quote) {
    DebitLeg(p).account == CreditLeg(q).account && DebitLeg(q).account == CreditLeg(p).account
  }

  /** Two trades that have each inserted the row they owe from wait for each other. */
  lemma EntangledIsACycle(s: State, u: CallId, v: CallId, ru: Request, rv: Request, p: Quote, q: Quote, now: int)
    requires u != v && u in s.calls && v in s.calls && Opposite(p, q)
    requires ru.TradeRequest? && rv.TradeRequest? && p.baseCurrency != p.quoteCurrency && q.baseCurrency != q.quoteCurrency
    requires s.calls[u] == BetweenInserts(ru, p, now) && s.calls[v] == BetweenInserts(rv, q, now)
    requires CreditLeg(p).account !in s.db.balances && CreditLeg(q).account !in s.db.balances
    ensures Cycle(WaitGraph(s), [u, v])
  {
    WaitsForCredit(s, u, v, ru, p, now);
    WaitsForCredit(s, v, u, rv, q, now);
    assert (u, v) in WaitGraph(s) && (v, u) in WaitGraph(s);
  }

  lemma WaitsForCredit(s: State, u: CallId, v: CallId, r: Request, p: Quote, now: int)
    requires u != v && u in s.calls && v in s.calls && r.TradeRequest? && p.baseCurrency != p.quoteCurrency
    requires s.calls[u] == BetweenInserts(r, p, now) && RowLock(CreditLeg(p).account) in s.calls[v].locks
    requires CreditLeg(p).account !in s.db.balances
    ensures WaitsFor(s, u, v)
  {
    assert HeldByOther(s, u, RowLock(CreditLeg(p).account));
  }

  ghost predicate NobodyHolds(s: State) {
    forall id :: id in s.calls ==> s.calls[id].locks == {}
  }

  /**
   * Any two trades of one client with opposite legs, both of whose balance rows are
   * missing, can be run into a deadlock: whatever the rest of the database, the
   * quotes, the keys and the ids.
   */
  lemma OppositeTradesDeadlock(start: State, actions: seq<Action>, u: CallId, v: CallId, ru: Request, rv: Request)
    returns (longer: seq<Action>)
    requires Run(start, actions).Some? && u != v
    requires var s := Run(start, actions).value;
      && JustBegun(s, u, ru) && JustBegun(s, v, rv) && NobodyHolds(s)
      && BothRowsMissing(s.db, ru, s.clock) && BothRowsMissing(s.db, rv, s.clock)
      && Opposite(s.db.quotes[ru.quoteId], s.db.quotes[rv.quoteId])
    ensures Run(start, longer).Some? && Cycle(WaitGraph(Run(start, longer).value), [u, v])
  {
    var s := Run(start, actions).value;
    var p, q := s.db.quotes[ru.quoteId], s.db.quotes[rv.quoteId];
    FourStatements(start, actions, u, ru);
    var half := actions + [Advance(u)] + [Advance(u)] + [Advance(u)] + [Advance(u)];
    var s' := With(s, u, BetweenInserts(ru, p, s.clock));
    OnlyHoldsItsOwn(s, u, v, ru, p, rv, q);
    FourStatements(start, half, v, rv);
    longer := half + [Advance(v)] + [Advance(v)] + [Advance(v)] + [Advance(v)];
    EntangledIsACycle(With(s', v, BetweenInserts(rv, q, s.clock)), u, v, ru, rv, p, q, s.clock);
  }

  lemma OnlyHoldsItsOwn(s: State, u: CallId, v: CallId, ru: Request, p: Quote, rv: Request, q: Quote)
    requires NobodyHolds(s) && u != v && ru.TradeRequest? && rv.TradeRequest? && ru.quoteId != rv.quoteId
    requires p.baseCurrency != p.quoteCurrency && q.baseCurrency != q.quoteCurrency && Opposite(p, q)
    ensures !HeldByOther(With(s, u, BetweenInserts(ru, p, s.clock)), v, QuoteLock(rv.quoteId))
    ensures !HeldByOther(With(s, u, BetweenInserts(ru, p, s.clock)), v, RowLock(DebitLeg(q).account))
  {
  }

  // ---- From any state, with a new opposite quote ----

  /** A quote for the other direction. */
  function Reversed(q: Quote, now: int): Quote {
    Quote(q.clientId, if q.side == BUY then SELL else BUY, q.baseCurrency, q.quoteCurrency, 1, Decimal(1, 0), 1, ACTIVE, now + 1)
  }

  /** The same state with a reversed quote stored. */
  function WithReversed(s: State, q: Quote, quoteId: QuoteId): State {
    s.(db := s.db.(quotes := s.db.quotes[quoteId := Reversed(q, s.clock)]),
       history := s.history + [QuoteOp(quoteId, Reversed(q, s.clock))])
  }

  /** And with a call for it begun. */
  function WithOpposite(s: State, other: CallId, r: Request, q: Quote, quoteId: QuoteId): State
    requires r.TradeRequest?
  {
    With(WithReversed(s, q, quoteId), other, NewCall(TradeRequest(r.clientId, quoteId, r.key), AtLookup))
  }

  lemma ReversedIsStored(s: State, q: Quote, quoteId: QuoteId)
    requires quoteId !in s.db.quotes
    ensures Apply(s, AddQuote(quoteId, Reversed(q, s.clock))) == Some(WithReversed(s, q, quoteId))
  {
  }

  lemma OppositeBegins(s: State, other: CallId, r: Request, q: Quote, quoteId: QuoteId, rawKey: string)
    requires r.TradeRequest? && r.key == Trim(rawKey) && other !in s.calls && !IdUsed(s.db, other)
    ensures Apply(WithReversed(s, q, quoteId), BeginTrade(other, r.clientId, quoteId, rawKey))
         == Some(WithOpposite(s, other, r, q, quoteId))
  {
    assert !IdUsed(WithReversed(s, q, quoteId).db, other);
  }

  lemma NowOpposite(s: State, id: CallId, other: CallId, r: Request, quoteId: QuoteId)
    requires JustBegun(s, id, r) && BothRowsMissing(s.db, r, s.clock) && NobodyHolds(s)
    requires quoteId !in s.db.quotes && other !in s.calls
    ensures var r', s' := TradeRequest(r.clientId, quoteId, r.key), WithOpposite(s, other, r, s.db.quotes[r.quoteId], quoteId);
      && JustBegun(s', id, r) && JustBegun(s', other, r') && NobodyHolds(s')
      && BothRowsMissing(s'.db, r, s'.clock) && BothRowsMissing(s'.db, r', s'.clock)
      && Opposite(s'.db.quotes[r.quoteId], s'.db.quotes[quoteId])
  {
  }

  /** A call that finds both of its rows missing can meet an opposite trade of its own client. */
  lemma MissingRowsCanDeadlock(s: State, id: CallId, r: Request, rawKey: string) returns (actions: seq<Action>, other: CallId)
    requires EveryCall(s.db, s.calls) && JustBegun(s, id, r) && r.key == Trim(rawKey) && BothRowsMissing(s.db, r, s.clock)
    ensures Run(s, actions).Some? && Cycle(WaitGraph(Run(s, actions).value), [id, other])
  {
    FinishedHoldNothing(s);
    var alone, s1 := CutOff(s, [], s, id, s.calls.Keys - {id});
    other := UnusedCall(s1);
    var q := s1.db.quotes[r.quoteId];
    var quoteId := UnusedId(s1.db.quotes.Keys);
    var add, begin := AddQuote(quoteId, Reversed(q, s1.clock)), BeginTrade(other, r.clientId, quoteId, rawKey);
    ReversedIsStored(s1, q, quoteId);
    OppositeBegins(s1, other, r, q, quoteId, rawKey);
    RunTwo(s, alone, s1, add, WithReversed(s1, q, quoteId), begin, WithOpposite(s1, other, r, q, quoteId));
    NowOpposite(s1, id, other, r, quoteId);
    actions := OppositeTradesDeadlock(s, alone + [add] + [begin], id, other, r, TradeRequest(r.clientId, quoteId, r.key));
  }

  // ---- A call on a cycle began with both rows missing ----

  /** What has stayed true of a call and of the tables since the call began. */
  ghost predicate Since(before: State, s: State, id: CallId, r: Request) {
    && r.TradeRequest? && id in s.calls && s.calls[id].request == r && before.clock <= s.clock
    && OnlyForward(before.db.quotes, s.db.quotes)
    && (forall a :: a in before.db.balances ==> a in s.db.balances)
    && (forall t :: t in before.db.trades ==> t in s.db.trades)
    && (AfterCheck(s.calls[id].phase) ==> s.calls[id].checkedAt >= before.clock)
    && (1 <= Position(s.calls[id].phase) <= 12 ==> FindByIdempotencyKey(before.db.trades, r.clientId, r.key) == None)
  }

  lemma TablesOnlyGrow(s: State, action: Action)
    requires Apply(s, action).Some?
    ensures s.clock <= Apply(s, action).value.clock
    ensures forall a :: a in s.db.balances ==> a in Apply(s, action).value.db.balances
    ensures forall t :: t in s.db.trades ==> t in Apply(s, action).value.db.trades
  {
    DatabaseAfter(s, action);
  }

  predicate CallSince(trades: seq<Trade>, since: int, c: Call, r: Request)
    requires r.TradeRequest?
  {
    && c.request == r
    && (AfterCheck(c.phase) ==> c.checkedAt >= since)
    && (1 <= Position(c.phase) <= 12 ==> FindByIdempotencyKey(trades, r.clientId, r.key) == None)
  }

  lemma LookupSince(trades: seq<Trade>, s: State, c: Call, since: int, r: Request)
    requires r.TradeRequest? && CallSince(trades, since, c, r) && (c.phase.AtLookup? || c.phase.AtRaceLookup?)
    requires forall t :: t in trades ==> t in s.db.trades
    ensures TryLookup(s, c).Local? && CallSince(trades, since, TryLookup(s, c).call, r)
  {
  }

  lemma StatementSince(trades: seq<Trade>, s: State, id: CallId, since: int, r: Request)
    requires r.TradeRequest? && id in s.calls && CallSince(trades, since, s.calls[id], r) && Try(s, id).Local?
    requires since <= s.clock && 1 <= Position(s.calls[id].phase) <= 12
    ensures CallSince(trades, since, Try(s, id).call, r)
  {
  }

  lemma OwnStepSince(trades: seq<Trade>, s: State, id: CallId, since: int, r: Request)
    requires r.TradeRequest? && id in s.calls && CallSince(trades, since, s.calls[id], r) && since <= s.clock
    requires forall t :: t in trades ==> t in s.db.trades
    requires Apply(s, Advance(id)).Some?
    ensures CallSince(trades, since, Apply(s, Advance(id)).value.calls[id], r)
  {
    AdvanceEffect(s, id);
    if s.calls[id].phase.AtLookup? || s.calls[id].phase.AtRaceLookup? {
      LookupSince(trades, s, s.calls[id], since, r);
    } else if Try(s, id).Local? {
      StatementSince(trades, s, id, since, r);
    }
  }

  lemma CutOffSince(trades: seq<Trade>, since: int, c: Call, r: Request)
    requires r.TradeRequest? && CallSince(trades, since, c, r)
    ensures CallSince(trades, since, Ended(c, ServerError), r)
  {
  }

  lemma CallStepSince(trades: seq<Trade>, s: State, action: Action, id: CallId, since: int, r: Request)
    requires r.TradeRequest? && id in s.calls && CallSince(trades, since, s.calls[id], r) && since <= s.clock
    requires forall t :: t in trades ==> t in s.db.trades
    requires Apply(s, action).Some?
    ensures id in Apply(s, action).value.calls && CallSince(trades, since, Apply(s, action).value.calls[id], r)
  {
    CutOffSince(trades, since, s.calls[id], r);
    if action == Advance(id) { OwnStepSince(trades, s, id, since, r); } else { CallAfter(s, action, id); }
  }

  lemma {:induction false} RunSince(before: State, actions: seq<Action>, id: CallId, r: Request)
    requires Inv(before) && JustBegun(before, id, r) && Run(before, actions).Some?
    ensures Since(before, Run(before, actions).value, id, r)
  {
    if actions != [] {
      var earlier, last := actions[..|actions| - 1], actions[|actions| - 1];
      RunSince(before, earlier, id, r);
      RunKeepsInv(before, earlier);
      var s := Run(before, earlier).value;
      CallStepSince(before.db.trades, s, last, id, before.clock, r);
      TablesOnlyGrow(s, last);
      ApplyOnlyForward(s, last);
      ForwardAgain(before.db.quotes, s.db.quotes, Run(before, actions).value.db.quotes);
    }
  }

  /** A call between its inserts that waits found its credit row missing too. */
  lemma WaitsForMissingCredit(s: State, id: CallId, other: CallId)
    requires HoldsOnlyAZeroRow(s, id) && WaitsFor(s, id, other)
    ensures var q := s.calls[id].quote.value;
      q.baseCurrency != q.quoteCurrency && CreditLeg(q).account !in s.db.balances
  {
  }

  /** What a trade between its inserts, waiting on a missing credit row, says of the moment it began. */
  lemma WereMissing(before: State, s: State, id: CallId, r: Request)
    requires Since(before, s, id, r) && CallInv(s.db, id, s.calls[id]) && HoldsOnlyAZeroRow(s, id)
    requires var q := s.calls[id].quote.value; q.baseCurrency != q.quoteCurrency && CreditLeg(q).account !in s.db.balances
    requires r.quoteId in before.db.quotes
    ensures BothRowsMissing(before.db, r, before.clock)
  {
    var q := s.calls[id].quote.value;
    assert s.db.quotes[r.quoteId] == q && CheckQuoteRow(q, r.clientId, s.calls[id].checkedAt) == None;
    assert q.(status := before.db.quotes[r.quoteId].status) == before.db.quotes[r.quoteId];
  }

  /**
   * A call that is ever on a wait cycle began with both of its rows missing: a trade
   * whose debit row, or whose credit row, is committed when it begins never is.
   */
  lemma CycleMeansMissingRows(s: State, id: CallId, r: Request, actions: seq<Action>, cycle: seq<CallId>, k: nat)
    requires Inv(s) && JustBegun(s, id, r) && r.quoteId in s.db.quotes && Run(s, actions).Some?
    requires Cycle(WaitGraph(Run(s, actions).value), cycle) && k < |cycle| && cycle[k] == id
    ensures BothRowsMissing(s.db, r, s.clock)
  {
    var later := Run(s, actions).value;
    RunKeepsInv(s, actions);
    RunSince(s, actions, id, r);
    CycleMember(later, cycle, k);
    GraphRises(later);
    var before, after := CycleIsLevel(WaitGraph(later), later.calls, cycle, k);
    WaitsForMissingCredit(later, id, after);
    assert CallInv(later.db, id, later.calls[id]);
    WereMissing(s, later, id, r);
  }

  // ---- Exactly when ----

  ghost predicate OnCycle(s: State, actions: seq<Action>, cycle: seq<CallId>, id: CallId) {
    Run(s, actions).Some? && id in cycle && Cycle(WaitGraph(Run(s, actions).value), cycle)
  }

  /** Some run from here puts the call on a wait cycle. */
  ghost predicate CanDeadlock(s: State, id: CallId) {
    exists actions, cycle :: OnCycle(s, actions, cycle, id)
  }

  lemma BeginEffect(s: State, id: CallId, clientId: ClientId, quoteId: QuoteId, rawKey: string)
    requires Reachable(s) && Apply(s, BeginTrade(id, clientId, quoteId, rawKey)).Some?
    ensures var s' := Apply(s, BeginTrade(id, clientId, quoteId, rawKey)).value;
      Inv(s') && s'.db == s.db && s'.clock == s.clock && JustBegun(s', id, TradeRequest(clientId, quoteId, Trim(rawKey)))
  {
    ReachableKeepsInv(s);
    ApplyKeepsInv(s, BeginTrade(id, clientId, quoteId, rawKey));
  }

  /**
   * When a trade on a stored quote begins, some run puts it on a wait cycle if and only
   * if nothing refuses it yet and both of its balance rows are missing: a client whose
   * two rows exist, or even one of them, is never in a deadlock.
   */
  lemma DeadlockExactlyWhen(s: State, id: CallId, clientId: ClientId, quoteId: QuoteId, rawKey: string)
    requires Reachable(s) && Apply(s, BeginTrade(id, clientId, quoteId, rawKey)).Some? && quoteId in s.db.quotes
    ensures CanDeadlock(Apply(s, BeginTrade(id, clientId, quoteId, rawKey)).value, id)
        <==> BothRowsMissing(s.db, TradeRequest(clientId, quoteId, Trim(rawKey)), s.clock)
  {
    var r, s' := TradeRequest(clientId, quoteId, Trim(rawKey)), Apply(s, BeginTrade(id, clientId, quoteId, rawKey)).value;
    BeginEffect(s, id, clientId, quoteId, rawKey);
    if BothRowsMissing(s.db, r, s.clock) {
      var actions, other := MissingRowsCanDeadlock(s', id, r, rawKey);
      assert OnCycle(s', actions, [id, other], id);
    }
    if CanDeadlock(s', id) {
      var actions, cycle :| OnCycle(s', actions, cycle, id);
      var k :| 0 <= k < |cycle| && cycle[k] == id;
      CycleMeansMissingRows(s', id, r, actions, cycle, k);
    }
  }
}
