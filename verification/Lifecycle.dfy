/** What every run keeps: ledger, settlement, locks and the life of a quote. */
module Lifecycle {
  import opened Schema
  import opened Settlement
  import opened LedgerInvariant
  import opened Protocol
  import opened ProtocolInvariant
  import opened ProtocolRuns

  // ---- Ledger and settlement, in every reachable state ----

  /** In every reachable state a balance is the sum of its ledger deltas, not negative, inside bigint. */
  lemma BalancesAreLedgerSums(db: Database, now: int, errorsWrapped: bool, actions: seq<Action>, a: Account)
    requires Consistent(db) && Run(Start(db, now, errorsWrapped), actions).Some?
    ensures var after := Run(Start(db, now, errorsWrapped), actions).value.db;
      0 <= Available(after.balances, a) == Total(after.ledger, a) <= MAX_BIGINT
  {
    Serializable(db, now, errorsWrapped, actions);
  }

  ghost predicate SettledExactlyOnce(db: Database, quoteId: QuoteId) {
    exists t ::
      && t in db.trades && t.quoteId == quoteId && SettledFrom(db, t)
      && (forall u :: u in db.trades && u.quoteId == quoteId ==> u == t)
  }

  /**
   * In every reachable state an EXECUTED quote has exactly one trade, settled by
   * exactly the two ledger entries of its own legs, and an ACTIVE one has none.
   */
  lemma QuotesSettleExactlyOnce(db: Database, now: int, errorsWrapped: bool, actions: seq<Action>, quoteId: QuoteId)
    requires Consistent(db) && Run(Start(db, now, errorsWrapped), actions).Some?
    requires quoteId in Run(Start(db, now, errorsWrapped), actions).value.db.quotes
    ensures var after := Run(Start(db, now, errorsWrapped), actions).value.db;
      && (after.quotes[quoteId].status == EXECUTED ==> SettledExactlyOnce(after, quoteId))
      && (after.quotes[quoteId].status == ACTIVE ==> forall t :: t in after.trades ==> t.quoteId != quoteId)
  {
    Serializable(db, now, errorsWrapped, actions);
    ExecutedOnce(Run(Start(db, now, errorsWrapped), actions).value.db, quoteId);
  }

  lemma ExecutedOnce(db: Database, quoteId: QuoteId)
    requires Consistent(db) && quoteId in db.quotes
    ensures db.quotes[quoteId].status == EXECUTED ==> SettledExactlyOnce(db, quoteId)
    ensures db.quotes[quoteId].status == ACTIVE ==> forall t :: t in db.trades ==> t.quoteId != quoteId
  {
    if db.quotes[quoteId].status == EXECUTED {
      assert QuoteUsed(db.trades, quoteId);
      var i :| 0 <= i < |db.trades| && db.trades[i].quoteId == quoteId;
      var t := db.trades[i];
      assert t in db.trades && SettledFrom(db, t);
      forall u | u in db.trades && u.quoteId == quoteId ensures u == t {
        var j :| 0 <= j < |db.trades| && db.trades[j] == u;
      }
    }
  }

  /** Nothing in the tables carries the id of this call. */
  ghost predicate NoTrace(db: Database, id: CallId) {
    && (forall e :: e in db.ledger ==> e.ref != TradeRef(id) && e.ref != DepositRef(id))
    && (forall t :: t in db.trades ==> t.id != id)
  }

  lemma UnusedIdHasNoTrace(db: Database, id: CallId)
    requires TradesSettled(db) && !IdUsed(db, id)
    ensures NoTrace(db, id)
  {
    forall t | t in db.trades ensures t.id != id {
      assert SettledFrom(db, t);
      EntryIsThere(db.ledger, TradeRef(t.id));
    }
  }

  lemma {:induction false} EntryIsThere(ledger: seq<Entry>, ref: Ref)
    requires EntriesFor(ledger, ref) != []
    ensures exists e :: e in ledger && e.ref == ref
  {
    if ledger[|ledger| - 1].ref == ref {
      assert ledger[|ledger| - 1] in ledger;
    } else {
      EntryIsThere(ledger[..|ledger| - 1], ref);
    }
  }

  /**
   * In every reachable state a call that is still running, or that was refused, told of
   * a conflict or given a replay, has left no ledger entry and no trade behind.
   */
  lemma AbortLeavesNoTrace(s: State, id: CallId)
    requires Reachable(s) && id in s.calls
    requires Finished(s.calls[id]) ==>
      var answer := s.calls[id].phase.answer; answer.Refused? || answer.KeyConflict? || answer.Replayed?
    ensures NoTrace(s.db, id)
  {
    ReachableKeepsInv(s);
    assert CallInv(s.db, id, s.calls[id]);
    UnusedIdHasNoTrace(s.db, id);
  }

  /**
   * In every reachable state what a call was told is borne out by the committed
   * rows: a reported trade is there, under the caller's key, settled by its quote's two legs.
   */
  lemma AnswersAreTrue(db: Database, now: int, errorsWrapped: bool, actions: seq<Action>, id: CallId)
    requires Consistent(db) && Run(Start(db, now, errorsWrapped), actions).Some?
    requires id in Run(Start(db, now, errorsWrapped), actions).value.calls
    requires Finished(Run(Start(db, now, errorsWrapped), actions).value.calls[id])
    ensures var s := Run(Start(db, now, errorsWrapped), actions).value;
      var c := s.calls[id];
      && AnswerHolds(s.db, id, c.request, c.phase.answer)
      && (c.phase.answer.Created? || c.phase.answer.Replayed? ==> SettledFrom(s.db, c.phase.answer.trade))
  {
    Serializable(db, now, errorsWrapped, actions);
    AnsweredCall(Run(Start(db, now, errorsWrapped), actions).value, id);
  }

  lemma AnsweredCall(s: State, id: CallId)
    requires TradesSettled(s.db) && EveryCall(s.db, s.calls) && id in s.calls && Finished(s.calls[id])
    ensures var c := s.calls[id];
      && AnswerHolds(s.db, id, c.request, c.phase.answer)
      && (c.phase.answer.Created? || c.phase.answer.Replayed? ==> SettledFrom(s.db, c.phase.answer.trade))
  {
    assert CallInv(s.db, id, s.calls[id]);
  }

  // ---- The life of a quote ----

  /** Nothing in a quote ever changes but its status, and that only from ACTIVE to EXECUTED. */
  predicate OnlyForward(quotes: map<QuoteId, Quote>, after: map<QuoteId, Quote>) {
    forall id :: id in quotes ==>
      && id in after
      && after[id].(status := quotes[id].status) == quotes[id]
      && (quotes[id].status == EXECUTED ==> after[id].status == EXECUTED)
  }

  lemma ForwardAgain(quotes: map<QuoteId, Quote>, between: map<QuoteId, Quote>, after: map<QuoteId, Quote>)
    requires OnlyForward(quotes, between) && OnlyForward(between, after)
    ensures OnlyForward(quotes, after)
  {
  }

  lemma PerformOnlyForward(db: Database, op: Operation)
    requires Perform(db, op).Some?
    ensures OnlyForward(db.quotes, Perform(db, op).value.quotes)
  {
    if op.TradeOp? {
      TradeEffect(db, op.clientId, op.quoteId, op.key, op.checkedAt, op.id);
    }
  }

  lemma ApplyOnlyForward(s: State, action: Action)
    requires Inv(s) && Apply(s, action).Some?
    ensures OnlyForward(s.db.quotes, Apply(s, action).value.db.quotes)
  {
    ApplyIsAtomic(s, action);
    var s' := Apply(s, action).value;
    if s'.db != s.db {
      var op :| s'.history == s.history + [op] && Perform(s.db, op) == Some(s'.db);
      PerformOnlyForward(s.db, op);
    }
  }

  lemma {:induction false} QuotesOnlyMoveForward(s: State, actions: seq<Action>)
    requires Inv(s) && Run(s, actions).Some?
    ensures OnlyForward(s.db.quotes, Run(s, actions).value.db.quotes)
  {
    if actions != [] {
      var before := actions[..|actions| - 1];
      QuotesOnlyMoveForward(s, before);
      RunKeepsInv(s, before);
      ApplyOnlyForward(Run(s, before).value, actions[|actions| - 1]);
    }
  }

  /** Every committed trade passed its expiry check strictly before the quote expired. */
  lemma {:induction false} CommittedInTime(db: Database, history: seq<Operation>, i: nat)
    requires Replay(db, history).Some? && i < |history| && history[i].TradeOp?
    ensures var after := Replay(db, history).value;
      && history[i].quoteId in after.quotes
      && history[i].checkedAt < after.quotes[history[i].quoteId].expiresAt
      && after.quotes[history[i].quoteId].clientId == history[i].clientId
      && after.quotes[history[i].quoteId].status == EXECUTED
  {
    var n := |history| - 1;
    var before, op := Replay(db, history[..n]).value, history[n];
    if i < n {
      CommittedInTime(db, history[..n], i);
      PerformOnlyForward(before, op);
      assert before.quotes[history[i].quoteId].expiresAt == Replay(db, history).value.quotes[history[i].quoteId].expiresAt;
    } else {
      TradeEffect(before, op.clientId, op.quoteId, op.key, op.checkedAt, op.id);
    }
  }
}
