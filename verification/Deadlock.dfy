/**
 * Who can wait for whom. Sorting the row locks does not rule deadlock out, since
 * the missing rows are inserted unsorted; but a cycle can only stop trades that
 * hold nothing except a zero balance to pay from.
 */
module Deadlock {
  import opened Graphs
  import opened Schema
  import opened Settlement
  import opened LedgerInvariant
  import opened Protocol
  import opened ProtocolInvariant
  import opened ProtocolRuns

  ghost predicate WaitsFor(s: State, t: CallId, u: CallId) {
    && t in s.calls && u in s.calls && t != u
    && Try(s, t).Wait? && Try(s, t).lock in s.calls[u].locks
  }

  ghost predicate Blocked(s: State, t: CallId) {
    exists u :: WaitsFor(s, t, u)
  }

  predicate Live(c: Call) {
    !Finished(c)
  }

  // ---- Waiting goes up ----

  /** The currency a call in the sorted lock phase wants next; 0 elsewhere. */
  function NextCurrency(c: Call): nat {
    if c.phase.AtRowLock? then LockOrder(c.request, c.quote)[c.phase.next].currency else 0
  }

  predicate AtMost(c: Call, d: Call) {
    || Position(c.phase) < Position(d.phase)
    || (Position(c.phase) == Position(d.phase) && NextCurrency(c) <= NextCurrency(d))
  }

  predicate BothInserting(c: Call, d: Call) {
    c.phase.AtRowInsert? && d.phase.AtRowInsert?
  }

  /** What a call waits for is held by another that has come at least as far, or further. */
  ghost predicate HolderIsFurther(c: Call, d: Call) {
    && AtMost(c, d)
    && (BothInserting(c, d) || !AtMost(d, c))
    && Live(d)
  }

  lemma RowLockWait(s: State, t: CallId, c: Call, u: CallId, d: Call, a: Account)
    requires CallInv(s.db, t, c) && CallInv(s.db, u, d) && c.phase.AtRowLock?
    requires a == LockOrder(c.request, c.quote)[c.phase.next] && RowLock(a) !in c.locks && RowLock(a) in d.locks
    ensures HolderIsFurther(c, d)
  {
    assert !Holds(c, RowLock(a)) && Holds(d, RowLock(a));
    assert a in s.db.balances;
    if d.phase.AtRowLock? {
      assert a in LockOrder(d.request, d.quote)[..d.phase.next];
    }
  }

  lemma IndexWait(s: State, t: CallId, u: CallId)
    requires EveryCall(s.db, s.calls) && Exclusive(s.calls) && WaitsFor(s, t, u) && 9 <= Position(s.calls[t].phase) <= 11
    ensures HolderIsFurther(s.calls[t], s.calls[u])
  {
    var c, d := s.calls[t], s.calls[u];
    assert CallInv(s.db, t, c) && CallInv(s.db, u, d);
    IndexHolder(s, t, c, d);
  }

  lemma IndexHolder(s: State, t: CallId, c: Call, d: Call)
    requires LocksInv(c) && LocksInv(d) && t in s.calls && s.calls[t] == c && 9 <= Position(c.phase) <= 11
    requires Try(s, t).Wait? && Try(s, t).lock in d.locks
    requires forall lock :: lock in c.locks ==> lock !in d.locks
    ensures HolderIsFurther(c, d)
  {
    assert Holds(d, Try(s, t).lock);
    assert Holds(c, QuoteLock(c.request.quoteId));
    assert Holds(d, QuoteLock(c.request.quoteId)) <==> QuoteLock(c.request.quoteId) in d.locks;
  }

  lemma EarlyWait(s: State, t: CallId, c: Call, u: CallId, d: Call)
    requires CallInv(s.db, t, c) && CallInv(s.db, u, d) && Position(c.phase) <= 3
    requires t in s.calls && s.calls[t] == c && Try(s, t).Wait? && Try(s, t).lock in d.locks
    ensures HolderIsFurther(c, d)
  {
    assert Holds(d, Try(s, t).lock);
  }

  /** Along a wait the holder is strictly further on, unless both are still inserting rows. */
  lemma WaitGoesUp(s: State, t: CallId, u: CallId)
    requires Inv(s) && WaitsFor(s, t, u)
    ensures HolderIsFurther(s.calls[t], s.calls[u])
  {
    var c, d := s.calls[t], s.calls[u];
    assert CallInv(s.db, t, c) && CallInv(s.db, u, d);
    if c.phase.AtRowLock? {
      RowLockWait(s, t, c, u, d, LockOrder(c.request, c.quote)[c.phase.next]);
    } else if Position(c.phase) <= 3 {
      EarlyWait(s, t, c, u, d);
    } else {
      IndexWait(s, t, u);
    }
  }

  // ---- Cycles ----

  /** The waits-for graph of a state. */
  ghost function WaitGraph(s: State): Edges {
    set t, u | t in s.calls && u in s.calls && WaitsFor(s, t, u) :: (t, u)
  }

  predicate Rising(edges: Edges, calls: map<CallId, Call>) {
    forall e :: e in edges ==> e.0 in calls && e.1 in calls && AtMost(calls[e.0], calls[e.1])
  }

  lemma GraphRises(s: State)
    requires Inv(s)
    ensures Rising(WaitGraph(s), s.calls)
  {
    forall e | e in WaitGraph(s) ensures e.0 in s.calls && e.1 in s.calls && AtMost(s.calls[e.0], s.calls[e.1]) {
      WaitGoesUp(s, e.0, e.1);
    }
  }

  lemma {:induction false} PathRises(edges: Edges, calls: map<CallId, Call>, path: seq<CallId>, i: nat, j: nat)
    requires Rising(edges, calls) && Path(edges, path) && i <= j < |path| && path[j] in calls
    ensures path[i] in calls && AtMost(calls[path[i]], calls[path[j]])
    decreases j - i
  {
    if i < j {
      PathRises(edges, calls, path, i + 1, j);
      assert (path[i], path[i + 1]) in edges;
    }
  }

  /** On a cycle no wait goes strictly up: every member has come equally far. */
  lemma CycleIsLevel(edges: Edges, calls: map<CallId, Call>, cycle: seq<CallId>, k: nat) returns (before: CallId, after: CallId)
    requires Rising(edges, calls) && Cycle(edges, cycle) && k < |cycle|
    ensures (before, cycle[k]) in edges && (cycle[k], after) in edges
    ensures before in calls && cycle[k] in calls && AtMost(calls[cycle[k]], calls[before])
  {
    var n := |cycle|;
    assert (cycle[n - 1], cycle[0]) in edges;
    PathRises(edges, calls, cycle, k, n - 1);
    after := if k == n - 1 then cycle[0] else cycle[k + 1];
    if k == 0 {
      before := cycle[n - 1];
    } else {
      before := cycle[k - 1];
      assert (cycle[k - 1], cycle[k - 1 + 1]) in edges;
      PathRises(edges, calls, cycle, 0, k - 1);
    }
  }

  /** The call holds nothing of value: its own debit row, just inserted at zero. */
  ghost predicate HoldsOnlyAZeroRow(s: State, id: CallId) {
    && id in s.calls
    && var c := s.calls[id];
      && c.request.TradeRequest? && c.phase == AtRowInsert(1)
      && var owed := DebitLeg(c.quote.value);
        && owed.amountMinor > 0
        && owed.account !in s.db.balances
        && c.writes == map[owed.account := 0]
        && c.locks == {QuoteLock(c.request.quoteId), RowLock(owed.account)}
  }

  lemma BetweenTwoInserts(s: State, u: CallId, d: Call)
    requires CallInv(s.db, u, d) && u in s.calls && s.calls[u] == d && QuotesMatchTrades(s.db)
    requires d.phase == AtRowInsert(1) && d.writes != map[]
    ensures HoldsOnlyAZeroRow(s, u)
  {
    var accounts, owed := Accounts(d.request, d.quote), DebitLeg(d.quote.value);
    assert accounts[..1] == [accounts[0]] && accounts[0] == owed.account;
    assert StorableQuote(s.db.quotes[d.request.quoteId].(status := ACTIVE));
    forall lock ensures lock in d.locks <==> lock in {QuoteLock(d.request.quoteId), RowLock(owed.account)} {
      assert lock in d.locks <==> Holds(d, lock);
    }
  }

  lemma InsertingHolder(s: State, t: CallId, u: CallId)
    requires Inv(s) && WaitsFor(s, t, u) && BothInserting(s.calls[t], s.calls[u])
    ensures HoldsOnlyAZeroRow(s, u)
  {
    var c, d := s.calls[t], s.calls[u];
    assert CallInv(s.db, u, d);
    var a := Accounts(c.request, c.quote)[c.phase.next];
    assert Holds(d, RowLock(a));
    assert a in d.writes && d.phase.next == 1;
    BetweenTwoInserts(s, u, d);
  }

  /**
   * Every call on a wait cycle is a trade between its two row inserts that holds
   * one zero row and would have been refused for insufficient balance.
   */
  lemma CycleMember(s: State, cycle: seq<CallId>, k: nat)
    requires Inv(s) && Cycle(WaitGraph(s), cycle) && k < |cycle|
    ensures HoldsOnlyAZeroRow(s, cycle[k])
    ensures Alone(s, cycle[k], s.calls[cycle[k]]) == Aborted(InsufficientBalance)
  {
    GraphRises(s);
    var before, after := CycleIsLevel(WaitGraph(s), s.calls, cycle, k);
    WaitGoesUp(s, before, cycle[k]);
    InsertingHolder(s, before, cycle[k]);
    ZeroRowCannotPay(s, cycle[k]);
  }

  lemma ZeroRowCannotPay(s: State, id: CallId)
    requires Inv(s) && HoldsOnlyAZeroRow(s, id)
    ensures Alone(s, id, s.calls[id]) == Aborted(InsufficientBalance)
  {
    assert CallInv(s.db, id, s.calls[id]);
  }

  // ---- A cycle never costs a trade that could have filled ----

  /** Bound to fail: the call pays from a row it inserted at zero, or has already failed. */
  ghost predicate CannotFill(s: State, id: CallId) {
    && id in s.calls && !IdUsed(s.db, id)
    && var c := s.calls[id];
      || c.phase == Answered(Refused(InsufficientBalance))
      || c.phase == Answered(ServerError)
      || (c.request.TradeRequest? && 3 <= Position(c.phase) <= 5 && DebitLeg(c.quote.value).account in c.writes)
  }

  lemma ZeroRowMeansInsufficient(s: State, id: CallId, c: Call)
    requires CallInv(s.db, id, c) && c.phase.AtDebit? && DebitLeg(c.quote.value).account in c.writes
    requires QuotesMatchTrades(s.db)
    ensures TryDebit(s, id, c).call.phase == Answered(Refused(InsufficientBalance))
  {
    assert StorableQuote(s.db.quotes[c.request.quoteId].(status := ACTIVE));
  }

  lemma CommitUsesOwnId(db: Database, c: Call, committer: CallId, id: CallId)
    requires MoneyInv(db.balances, committer, c) && c.phase.AtCommit? && committer != id && !IdUsed(db, id)
    ensures !IdUsed(Published(db, c), id)
  {
    WrittenRowsAreHeld(db, committer, c);
  }

  lemma OnlyCommitsUseIds(s: State, action: Action, id: CallId)
    requires EveryCall(s.db, s.calls) && Apply(s, action).Some? && !IdUsed(s.db, id)
    requires action.Advance? || action.CommitUnheard? ==> action.id != id
    ensures !IdUsed(Apply(s, action).value.db, id)
  {
    DatabaseAfter(s, action);
    if Commits(s, action) {
      assert CallInv(s.db, action.id, s.calls[action.id]);
      CommitUsesOwnId(s.db, s.calls[action.id], action.id, id);
    }
  }

  lemma RowsCannotFill(s: State, id: CallId, c: Call)
    requires id in s.calls && s.calls[id] == c && c.request.TradeRequest? && (c.phase.AtRowInsert? || c.phase.AtRowLock?)
    requires DebitLeg(c.quote.value).account in c.writes && Try(s, id).Local?
    ensures var c' := Try(s, id).call;
      c'.request.TradeRequest? && 3 <= Position(c'.phase) <= 5 && DebitLeg(c'.quote.value).account in c'.writes
  {
  }

  lemma OwnStepCannotFill(s: State, id: CallId, c: Call)
    requires CallInv(s.db, id, c) && id in s.calls && s.calls[id] == c && QuotesMatchTrades(s.db)
    requires c.request.TradeRequest? && 3 <= Position(c.phase) <= 5 && DebitLeg(c.quote.value).account in c.writes
    requires Apply(s, Advance(id)).Some?
    ensures CannotFill(Apply(s, Advance(id)).value, id)
  {
    if c.phase.AtDebit? { ZeroRowMeansInsufficient(s, id, c); } else { RowsCannotFill(s, id, c); }
    DatabaseAfter(s, Advance(id));
  }

  lemma StillCannotFill(s: State, s': State, id: CallId)
    requires CannotFill(s, id) && id in s'.calls && !IdUsed(s'.db, id)
    requires s'.calls[id] == s.calls[id] || s'.calls[id] == Ended(s.calls[id], ServerError)
    ensures CannotFill(s', id)
  {
  }

  lemma OwnActionCannotFill(s: State, id: CallId)
    requires CannotFill(s, id) && CallInv(s.db, id, s.calls[id]) && QuotesMatchTrades(s.db) && Apply(s, Advance(id)).Some?
    ensures CannotFill(Apply(s, Advance(id)).value, id)
  {
    OwnStepCannotFill(s, id, s.calls[id]);
  }

  lemma CannotFillStep(s: State, action: Action, id: CallId)
    requires Inv(s) && CannotFill(s, id) && Apply(s, action).Some?
    ensures CannotFill(Apply(s, action).value, id)
  {
    assert CallInv(s.db, id, s.calls[id]);
    if action == Advance(id) {
      OwnActionCannotFill(s, id);
    } else {
      CallAfter(s, action, id);
      OthersUseOtherIds(s, action, id);
      StillCannotFill(s, Apply(s, action).value, id);
    }
  }

  lemma OthersUseOtherIds(s: State, action: Action, id: CallId)
    requires EveryCall(s.db, s.calls) && Apply(s, action).Some? && CannotFill(s, id) && action != Advance(id)
    ensures !IdUsed(Apply(s, action).value.db, id)
  {
    OnlyCommitsUseIds(s, action, id);
  }

  /** Whatever happens next, a call that was on a wait cycle never becomes a trade. */
  lemma {:induction false} CycleMemberNeverFills(s: State, cycle: seq<CallId>, k: nat, actions: seq<Action>)
    requires Inv(s) && Cycle(WaitGraph(s), cycle) && k < |cycle| && Run(s, actions).Some?
    ensures CannotFill(Run(s, actions).value, cycle[k])
  {
    if actions == [] {
      CycleMember(s, cycle, k);
      assert CallInv(s.db, cycle[k], s.calls[cycle[k]]);
    } else {
      CycleMemberNeverFills(s, cycle, k, actions[..|actions| - 1]);
      RunKeepsInv(s, actions[..|actions| - 1]);
      CannotFillStep(Run(s, actions[..|actions| - 1]).value, actions[|actions| - 1], cycle[k]);
    }
  }

  // ---- Progress ----

  ghost predicate Stuck(s: State) {
    && (exists t :: t in s.calls && Live(s.calls[t]))
    && forall t {:trigger Waiting(s, t)} :: t in s.calls && Live(s.calls[t]) ==> Waiting(s, t)
  }

  ghost predicate Waiting(s: State, t: CallId)
    requires t in s.calls
  {
    Try(s, t).Wait?
  }

  lemma WaitHasHolder(s: State, t: CallId)
    requires t in s.calls && Waiting(s, t)
    ensures Blocked(s, t)
  {
    assert HeldByOther(s, t, Try(s, t).lock);
    var u :| u in s.calls && u != t && Try(s, t).lock in s.calls[u].locks;
    assert WaitsFor(s, t, u);
  }

  lemma HolderIsLive(s: State, t: CallId, live: set<CallId>)
    requires Inv(s) && t in s.calls && Waiting(s, t) && live == set u | u in s.calls && Live(s.calls[u])
    ensures HasSuccessor(WaitGraph(s), live, t)
  {
    WaitHasHolder(s, t);
    var u :| WaitsFor(s, t, u);
    WaitGoesUp(s, t, u);
    assert u in live && (t, u) in WaitGraph(s);
  }

  /**
   * The only way to get stuck is a wait cycle; every member of one is described
   * by CycleMember.
   */
  lemma StuckMeansCycle(s: State) returns (cycle: seq<CallId>)
    requires Inv(s) && Stuck(s)
    ensures Cycle(WaitGraph(s), cycle)
  {
    var live := set u | u in s.calls && Live(s.calls[u]);
    forall t | t in live ensures HasSuccessor(WaitGraph(s), live, t) {
      assert Waiting(s, t);
      HolderIsLive(s, t, live);
    }
    var t :| t in s.calls && Live(s.calls[t]);
    assert t in live;
    cycle := CycleExists(WaitGraph(s), live);
  }

  /** When no call is holding a row it has just inserted, some call can always run its next statement. */
  lemma ExistingRowsNeverDeadlock(s: State)
    requires Inv(s)
    requires exists t :: t in s.calls && Live(s.calls[t])
    requires forall t :: t in s.calls && s.calls[t].phase.AtRowInsert? ==> s.calls[t].writes == map[]
    ensures exists t :: t in s.calls && Live(s.calls[t]) && Apply(s, Advance(t)).Some?
  {
    if Stuck(s) {
      var cycle := StuckMeansCycle(s);
      CycleMember(s, cycle, 0);
      assert false;
    }
    SomeCallSteps(s);
  }

  lemma SomeCallSteps(s: State)
    requires !Stuck(s) && exists t :: t in s.calls && Live(s.calls[t])
    ensures exists t :: t in s.calls && Live(s.calls[t]) && Apply(s, Advance(t)).Some?
  {
    var t :| t in s.calls && Live(s.calls[t]) && !Waiting(s, t);
    assert Apply(s, Advance(t)).Some?;
  }
}
