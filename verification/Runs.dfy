/** Building runs: one action after another, other calls cut off, ids nobody has used. */
module Runs {
  import opened Schema
  import opened Settlement
  import opened Protocol
  import opened ProtocolInvariant

  // ---- One action more ----

  lemma RunOne(start: State, actions: seq<Action>, action: Action)
    requires Run(start, actions).Some?
    ensures Run(start, actions + [action]) == Apply(Run(start, actions).value, action)
  {
    assert (actions + [action])[..|actions|] == actions;
  }

  lemma RunTwo(start: State, actions: seq<Action>, s: State, a: Action, between: State, b: Action, after: State)
    requires Run(start, actions) == Some(s) && Apply(s, a) == Some(between) && Apply(between, b) == Some(after)
    ensures Run(start, actions + [a] + [b]) == Some(after)
  {
    RunOne(start, actions, a);
    RunOne(start, actions + [a], b);
  }

  function With(s: State, id: CallId, c: Call): State {
    s.(calls := s.calls[id := c])
  }

  lemma Statement(start: State, actions: seq<Action>, s: State, id: CallId, c: Call)
    requires Run(start, actions) == Some(s) && id in s.calls && !Finished(s.calls[id]) && Try(s, id) == Local(c)
    ensures Run(start, actions + [Advance(id)]) == Some(With(s, id, c))
  {
    RunOne(start, actions, Advance(id));
  }

  // ---- Cutting calls off ----

  /** No call but this one has a lock. */
  ghost predicate NobodyElseHolds(s: State, id: CallId) {
    forall w :: w in s.calls && w != id ==> s.calls[w].locks == {}
  }

  lemma FinishedHoldNothing(s: State)
    requires EveryCall(s.db, s.calls)
    ensures forall w :: w in s.calls && Finished(s.calls[w]) ==> s.calls[w].locks == {}
  {
    forall w | w in s.calls && Finished(s.calls[w]) ensures s.calls[w].locks == {} {
      assert CallInv(s.db, w, s.calls[w]);
      forall lock ensures lock !in s.calls[w].locks {
        assert lock in s.calls[w].locks <==> Holds(s.calls[w], lock);
      }
    }
  }

  lemma Dropped(start: State, actions: seq<Action>, s: State, w: CallId)
    requires Run(start, actions) == Some(s) && w in s.calls && !Finished(s.calls[w])
    ensures Run(start, actions + [Drop(w)]) == Some(With(s, w, Ended(s.calls[w], ServerError)))
    ensures Ended(s.calls[w], ServerError).locks == {} && With(s, w, Ended(s.calls[w], ServerError)).calls.Keys == s.calls.Keys
  {
    RunOne(start, actions, Drop(w));
  }

  /** Calls can be cut off one by one, until only one is left with anything; nothing is committed by it. */
  lemma {:induction false} CutOff(start: State, actions: seq<Action>, s: State, id: CallId, others: set<CallId>)
    returns (longer: seq<Action>, s': State)
    requires Run(start, actions) == Some(s) && id !in others && others <= s.calls.Keys
    requires forall w :: w in s.calls && w != id && w !in others ==> s.calls[w].locks == {}
    requires forall w :: w in s.calls && Finished(s.calls[w]) ==> s.calls[w].locks == {}
    ensures Run(start, longer) == Some(s') && s' == s.(calls := s'.calls) && NobodyElseHolds(s', id)
    ensures s'.calls.Keys == s.calls.Keys && (id in s.calls ==> s'.calls[id] == s.calls[id])
    decreases |others|
  {
    if others == {} {
      longer, s' := actions, s;
    } else {
      var w :| w in others;
      if Finished(s.calls[w]) {
        longer, s' := CutOff(start, actions, s, id, others - {w});
      } else {
        Dropped(start, actions, s, w);
        longer, s' := CutOff(start, actions + [Drop(w)], With(s, w, Ended(s.calls[w], ServerError)), id, others - {w});
      }
    }
  }

  // ---- Unused ids ----

  lemma {:induction false} UnusedId(used: set<nat>) returns (next: nat)
    ensures next !in used && forall u :: u in used ==> u < next
  {
    next := 0;
    if used != {} {
      var u :| u in used;
      var others := UnusedId(used - {u});
      next := if others > u then others else u + 1;
      assert forall w :: w in used ==> w == u || w in used - {u};
    }
  }

  lemma UnusedCall(s: State) returns (id: CallId)
    ensures id !in s.calls && !IdUsed(s.db, id)
  {
    var trades := set e | e in s.db.ledger && e.ref.TradeRef? :: e.ref.trade;
    var deposits := set e | e in s.db.ledger && e.ref.DepositRef? :: e.ref.deposit;
    id := UnusedId(s.calls.Keys + trades + deposits);
    forall e | e in s.db.ledger ensures e.ref != TradeRef(id) && e.ref != DepositRef(id) {
      assert e.ref.TradeRef? ==> e.ref.trade in trades;
      assert e.ref.DepositRef? ==> e.ref.deposit in deposits;
    }
  }

  // ---- The first statements of a trade ----

  /** A trade call that has run no statement yet. */
  predicate JustBegun(s: State, id: CallId, r: Request) {
    id in s.calls && r.TradeRequest? && s.calls[id] == NewCall(r, AtLookup)
  }

  lemma HoldersUnchanged(s: State, id: CallId, c: Call, lock: Lock)
    requires !HeldByOther(s, id, lock)
    ensures !HeldByOther(With(s, id, c), id, lock)
  {
    assert forall u :: u in s.calls && u != id ==> With(s, id, c).calls[u] == s.calls[u];
  }

  lemma QuoteIsLocked(s: State, id: CallId, q: Quote)
    requires id in s.calls && s.calls[id].phase.AtQuoteLock? && s.calls[id].locks == {}
    requires var quoteId := s.calls[id].request.quoteId;
      quoteId in s.db.quotes && s.db.quotes[quoteId] == q && !HeldByOther(s, id, QuoteLock(quoteId))
    ensures Try(s, id) == Local(s.calls[id].(phase := AtQuoteCheck, quote := Some(q), locks := {QuoteLock(s.calls[id].request.quoteId)}))
  {
    assert {} + {QuoteLock(s.calls[id].request.quoteId)} == {QuoteLock(s.calls[id].request.quoteId)};
  }

  lemma QuotePasses(s: State, id: CallId, q: Quote)
    requires id in s.calls && s.calls[id].phase.AtQuoteCheck? && s.calls[id].quote == Some(q)
    requires CheckQuoteRow(q, s.calls[id].request.clientId, s.clock) == None
    ensures Try(s, id) == Local(s.calls[id].(phase := AtRowInsert(0), checkedAt := s.clock))
  {
  }

  /** A trade call with its quote row locked, and then with the quote checked. */
  function Locked(r: Request, q: Quote): Call
    requires r.TradeRequest?
  {
    NewCall(r, AtLookup).(phase := AtQuoteCheck, quote := Some(q), locks := {QuoteLock(r.quoteId)})
  }

  function Checked(r: Request, q: Quote, now: int): Call
    requires r.TradeRequest?
  {
    Locked(r, q).(phase := AtRowInsert(0), checkedAt := now)
  }

  lemma LookupAndLock(start: State, actions: seq<Action>, s: State, id: CallId, r: Request, q: Quote)
    requires Run(start, actions) == Some(s) && JustBegun(s, id, r)
    requires FindByIdempotencyKey(s.db.trades, r.clientId, r.key) == None
    requires r.quoteId in s.db.quotes && s.db.quotes[r.quoteId] == q && !HeldByOther(s, id, QuoteLock(r.quoteId))
    ensures Run(start, actions + [Advance(id)] + [Advance(id)]) == Some(With(s, id, Locked(r, q)))
  {
    var c1: Call := s.calls[id].(phase := AtQuoteLock);
    Statement(start, actions, s, id, c1);
    HoldersUnchanged(s, id, c1, QuoteLock(r.quoteId));
    QuoteIsLocked(With(s, id, c1), id, q);
    Statement(start, actions + [Advance(id)], With(s, id, c1), id, Locked(r, q));
    assert With(With(s, id, c1), id, Locked(r, q)) == With(s, id, Locked(r, q));
  }

  lemma CheckPassed(start: State, actions: seq<Action>, s: State, id: CallId, r: Request, q: Quote)
    requires r.TradeRequest? && Run(start, actions) == Some(With(s, id, Locked(r, q)))
    requires CheckQuoteRow(q, r.clientId, s.clock) == None
    ensures Run(start, actions + [Advance(id)]) == Some(With(s, id, Checked(r, q, s.clock)))
  {
    QuotePasses(With(s, id, Locked(r, q)), id, q);
    Statement(start, actions, With(s, id, Locked(r, q)), id, Checked(r, q, s.clock));
    assert With(With(s, id, Locked(r, q)), id, Checked(r, q, s.clock)) == With(s, id, Checked(r, q, s.clock));
  }
}
