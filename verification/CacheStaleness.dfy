/** When an executed quote can still be shown as open: exactly while an ACTIVE copy is live or on its way. */
module CacheStaleness {
  import opened Schema
  import opened QuoteMapper
  import opened QuoteCache
  import opened CacheCoherence
  import opened Lifecycle
  import Protocol
  import Runs
  import Completion

  predicate ExecutedInTable(w: World, quoteId: QuoteId) {
    quoteId in w.core.db.quotes && w.core.db.quotes[quoteId].status == EXECUTED
  }

  /** A live cache entry still says ACTIVE. */
  predicate ActiveEntry(w: World, quoteId: QuoteId) {
    CacheGet(w, quoteId).Some? && CacheGet(w, quoteId).value.status == ACTIVE
  }

  /** A task between its table read and its cache write holds an ACTIVE copy it will write. */
  predicate ActiveWriter(clock: int, t: Task) {
    || (t.step.AtTtl? && t.step.row.status == ACTIVE && clock < t.step.row.expiresAt)
    || (t.step.AtCacheWrite? && t.step.row.status == ACTIVE)
  }

  predicate Exposed(w: World, quoteId: QuoteId) {
    || ActiveEntry(w, quoteId)
    || exists id :: id in w.tasks && w.tasks[id].quoteId == quoteId && ActiveWriter(w.core.clock, w.tasks[id])
  }

  /** A read by the quote's own client that has been answered. */
  predicate AnsweredOwner(w: World, quoteId: QuoteId, task: TaskId) {
    && quoteId in w.core.db.quotes && task in w.tasks && w.tasks[task].quoteId == quoteId
    && w.tasks[task].step.Replied? && w.tasks[task].clientId == w.core.db.quotes[quoteId].clientId
  }

  predicate SaysExecuted(t: Task) {
    t.step.Replied? && t.step.response.Some? && t.step.response.value.status == Stored(EXECUTED)
  }

  /** Every read that begins from here on, in any run, tells the owner EXECUTED. */
  ghost predicate LaterReadsSayExecuted(w: World, quoteId: QuoteId) {
    forall actions, task ::
      Run(w, actions).Some? && task !in w.tasks && AnsweredOwner(Run(w, actions).value, quoteId, task)
      ==> SaysExecuted(Run(w, actions).value.tasks[task])
  }

  // ---- Not exposed: every later read says EXECUTED ----

  /** Nothing this task holds is behind the table. */
  predicate UpToDate(row: Quote, t: Task) {
    match t.step
    case AtTtl(copy) => copy.status == EXECUTED
    case AtCacheWrite(copy, _, _) => copy.status == EXECUTED
    case AtReply(found) => found.Some? && found.value.status == EXECUTED && found.value.clientId == row.clientId
    case Finished => true
    case Replied(_, _) => t.clientId == row.clientId ==> SaysExecuted(t)
    case _ => true
  }

  predicate NoneBehind(w: World, quoteId: QuoteId, earlier: set<TaskId>) {
    && ExecutedInTable(w, quoteId) && !Exposed(w, quoteId)
    && forall id :: id in w.tasks && id !in earlier && w.tasks[id].quoteId == quoteId ==>
         UpToDate(w.core.db.quotes[quoteId], w.tasks[id])
  }

  lemma TradingKeepsNoneBehind(w: World, quoteId: QuoteId, earlier: set<TaskId>, action: Protocol.Action, invalidation: TaskId)
    requires Coherent(w) && NoneBehind(w, quoteId, earlier) && AfterTrading(w, action, invalidation).Some?
    ensures NoneBehind(AfterTrading(w, action, invalidation).value, quoteId, earlier)
  {
    TradingShape(w, action, invalidation);
    CoreMoves(w.core, action);
    TablesMovedOn(w, AfterTrading(w, action, invalidation).value, quoteId, earlier);
  }

  lemma TablesMovedOn(w: World, w': World, quoteId: QuoteId, earlier: set<TaskId>)
    requires NoneBehind(w, quoteId, earlier)
    requires OnlyForward(w.core.db.quotes, w'.core.db.quotes) && w.core.clock <= w'.core.clock && w'.cache == w.cache
    requires forall id :: id in w'.tasks ==> w'.tasks[id].step.AtInvalidate? || (id in w.tasks && w'.tasks[id] == w.tasks[id])
    ensures NoneBehind(w', quoteId, earlier)
  {
    assert CacheGet(w', quoteId).None? || CacheGet(w', quoteId) == CacheGet(w, quoteId);
  }

  lemma ReadKeepsNoneBehind(w: World, quoteId: QuoteId, earlier: set<TaskId>, task: TaskId, outcome: Outcome)
    requires Coherent(w) && NoneBehind(w, quoteId, earlier) && task in w.tasks && Move(w, task, outcome).Some?
    requires w.tasks[task].quoteId == quoteId
    requires !w.tasks[task].step.AtCacheWrite? && !w.tasks[task].step.AtInvalidate?
    ensures NoneBehind(Move(w, task, outcome).value, quoteId, earlier)
  {
    var t := w.tasks[task];
    assert TaskOk(w.core.db.quotes, w.core.clock, t);
    assert quoteId in w.cache ==> EntryOk(w.core.db.quotes, w.core.clock, quoteId, w.cache[quoteId]);
    assert !ActiveWriter(w.core.clock, t);
    OneTaskMoved(w, Move(w, task, outcome).value, quoteId, earlier, task);
  }

  lemma OneTaskMoved(w: World, w': World, quoteId: QuoteId, earlier: set<TaskId>, task: TaskId)
    requires NoneBehind(w, quoteId, earlier) && task in w.tasks && task in w'.tasks
    requires w' == w.(tasks := w.tasks[task := w'.tasks[task]])
    requires task !in earlier ==> UpToDate(w.core.db.quotes[quoteId], w'.tasks[task])
    requires !ActiveWriter(w.core.clock, w'.tasks[task])
    ensures NoneBehind(w', quoteId, earlier)
  {
  }

  lemma WriteKeepsNoneBehind(w: World, quoteId: QuoteId, earlier: set<TaskId>, task: TaskId, outcome: Outcome)
    requires TasksOk(w.core.db.quotes, w.core.clock, w.tasks) && NoneBehind(w, quoteId, earlier)
    requires task in w.tasks && w.tasks[task].quoteId == quoteId && w.tasks[task].step.AtCacheWrite?
    requires CacheSet(w, task, outcome).Some?
    ensures NoneBehind(CacheSet(w, task, outcome).value, quoteId, earlier)
  {
    var t := w.tasks[task];
    assert TaskOk(w.core.db.quotes, w.core.clock, t);
    assert !ActiveWriter(w.core.clock, t);
    CachedCopy(w, task, outcome);
  }

  lemma DeleteKeepsNoneBehind(w: World, quoteId: QuoteId, earlier: set<TaskId>, task: TaskId, outcome: Outcome)
    requires NoneBehind(w, quoteId, earlier) && task in w.tasks && w.tasks[task].step.AtInvalidate?
    requires CacheDelete(w, task, outcome).Some?
    ensures NoneBehind(CacheDelete(w, task, outcome).value, quoteId, earlier)
  {
  }

  lemma CachedCopy(w: World, task: TaskId, outcome: Outcome)
    requires task in w.tasks && w.tasks[task].step.AtCacheWrite? && CacheSet(w, task, outcome).Some?
    requires w.tasks[task].step.row.status == EXECUTED
    ensures !ActiveEntry(w, w.tasks[task].quoteId) ==> !ActiveEntry(CacheSet(w, task, outcome).value, w.tasks[task].quoteId)
  {
    assert SerializeQuote(w.tasks[task].step.row).status == EXECUTED;
  }

  /** A step for one quote leaves row, entry and tasks of the others alone. */
  lemma MoveElsewhere(w: World, task: TaskId, outcome: Outcome, quoteId: QuoteId)
    requires task in w.tasks && Move(w, task, outcome).Some? && w.tasks[task].quoteId != quoteId
    ensures var w' := Move(w, task, outcome).value;
      && w'.core.clock == w.core.clock && CacheGet(w', quoteId) == CacheGet(w, quoteId)
      && (quoteId in w.core.db.quotes ==>
            quoteId in w'.core.db.quotes && w'.core.db.quotes[quoteId] == w.core.db.quotes[quoteId])
      && (forall id :: id in w'.tasks && w'.tasks[id].quoteId == quoteId ==> id in w.tasks && w.tasks[id] == w'.tasks[id])
  {
  }

  lemma OtherTaskKeepsNoneBehind(w: World, quoteId: QuoteId, earlier: set<TaskId>, task: TaskId, outcome: Outcome)
    requires NoneBehind(w, quoteId, earlier) && task in w.tasks && Move(w, task, outcome).Some?
    requires w.tasks[task].quoteId != quoteId
    ensures NoneBehind(Move(w, task, outcome).value, quoteId, earlier)
  {
    MoveElsewhere(w, task, outcome, quoteId);
  }

  lemma OwnTaskKeepsNoneBehind(w: World, quoteId: QuoteId, earlier: set<TaskId>, task: TaskId, outcome: Outcome)
    requires Coherent(w) && NoneBehind(w, quoteId, earlier) && task in w.tasks && Move(w, task, outcome).Some?
    requires w.tasks[task].quoteId == quoteId
    ensures NoneBehind(Move(w, task, outcome).value, quoteId, earlier)
  {
    if w.tasks[task].step.AtCacheWrite? {
      WriteKeepsNoneBehind(w, quoteId, earlier, task, outcome);
    } else if w.tasks[task].step.AtInvalidate? {
      DeleteKeepsNoneBehind(w, quoteId, earlier, task, outcome);
    } else {
      ReadKeepsNoneBehind(w, quoteId, earlier, task, outcome);
    }
  }

  lemma NextKeepsNoneBehind(w: World, quoteId: QuoteId, earlier: set<TaskId>, action: Action)
    requires Coherent(w) && NoneBehind(w, quoteId, earlier) && Next(w, action).Some?
    ensures NoneBehind(Next(w, action).value, quoteId, earlier)
  {
    match action
    case Trading(a, invalidation) => TradingKeepsNoneBehind(w, quoteId, earlier, a, invalidation);
    case BeginCreate(_, _, _) =>
    case BeginRead(_, _, _) =>
    case Advance(task, outcome) =>
      if w.tasks[task].quoteId == quoteId { OwnTaskKeepsNoneBehind(w, quoteId, earlier, task, outcome); }
      else { OtherTaskKeepsNoneBehind(w, quoteId, earlier, task, outcome); }
    case Evict(_) =>
  }

  lemma {:induction false} RunKeepsNoneBehind(w: World, quoteId: QuoteId, earlier: set<TaskId>, actions: seq<Action>)
    requires Coherent(w) && NoneBehind(w, quoteId, earlier) && Run(w, actions).Some?
    ensures NoneBehind(Run(w, actions).value, quoteId, earlier)
  {
    if actions != [] {
      var before := actions[..|actions| - 1];
      RunKeepsNoneBehind(w, quoteId, earlier, before);
      RunKeepsCoherent(w, before);
      NextKeepsNoneBehind(Run(w, before).value, quoteId, earlier, actions[|actions| - 1]);
    }
  }

  lemma UnexposedStaysFresh(w: World, quoteId: QuoteId)
    requires Coherent(w) && ExecutedInTable(w, quoteId) && !Exposed(w, quoteId)
    ensures LaterReadsSayExecuted(w, quoteId)
  {
    forall actions, task
      | Run(w, actions).Some? && task !in w.tasks && AnsweredOwner(Run(w, actions).value, quoteId, task)
      ensures SaysExecuted(Run(w, actions).value.tasks[task])
    {
      RunKeepsNoneBehind(w, quoteId, w.tasks.Keys, actions);
    }
  }

  // ---- Exposed: some later read does not ----

  lemma RunAppend(w: World, actions: seq<Action>, action: Action)
    requires Run(w, actions).Some?
    ensures Run(w, actions + [action]) == Next(Run(w, actions).value, action)
  {
    assert (actions + [action])[..|actions|] == actions;
  }

  /** A run to a read that does not say EXECUTED. */
  ghost predicate GoesStale(w: World, quoteId: QuoteId, actions: seq<Action>, task: TaskId) {
    && Run(w, actions).Some? && task !in w.tasks && AnsweredOwner(Run(w, actions).value, quoteId, task)
    && !SaysExecuted(Run(w, actions).value.tasks[task])
  }

  /** A new read of a live ACTIVE entry, from its beginning to its answer. */
  lemma ReadsEntry(w: World, quoteId: QuoteId, task: TaskId, row: Quote, w1: World, w2: World)
    requires task !in w.tasks && CacheGet(w, quoteId).Some? && DeserializeQuote(CacheGet(w, quoteId).value) == Some(row)
    requires w1 == w.(tasks := w.tasks[task := Task(row.clientId, quoteId, AtCacheRead)])
    requires w2 == At(w1, task, AtReply(Some(row)))
    ensures Next(w, BeginRead(task, row.clientId, quoteId)) == Some(w1)
    ensures Next(w1, Advance(task, Applied)) == Some(w2)
    ensures Next(w2, Advance(task, Applied))
         == Some(At(w2, task, Replied(Some(ToQuoteResponse(row, w.core.clock)), w.core.clock)))
  {
  }

  lemma RunThree(start: World, actions: seq<Action>, w: World, a: Action, w1: World, b: Action, w2: World, c: Action)
    requires Run(start, actions) == Some(w) && Next(w, a) == Some(w1) && Next(w1, b) == Some(w2)
    ensures Run(start, actions + [a] + [b] + [c]) == Next(w2, c)
  {
    RunAppend(start, actions, a);
    RunAppend(start, actions + [a], b);
    RunAppend(start, actions + [a] + [b], c);
  }

  /** From a world with a live ACTIVE entry: read it. */
  lemma EntryIsRead(start: World, actions: seq<Action>, w: World, quoteId: QuoteId) returns (longer: seq<Action>, task: TaskId)
    requires Run(start, actions) == Some(w) && start.tasks.Keys <= w.tasks.Keys
    requires Coherent(w) && ExecutedInTable(w, quoteId) && ActiveEntry(w, quoteId)
    ensures GoesStale(start, quoteId, longer, task)
  {
    task := Runs.UnusedId(w.tasks.Keys);
    assert EntryOk(w.core.db.quotes, w.core.clock, quoteId, w.cache[quoteId]);
    var row := DeserializeQuote(w.cache[quoteId].value).value;
    var w1 := w.(tasks := w.tasks[task := Task(row.clientId, quoteId, AtCacheRead)]);
    var w2 := At(w1, task, AtReply(Some(row)));
    ReadsEntry(w, quoteId, task, row, w1, w2);
    RunThree(start, actions, w, BeginRead(task, row.clientId, quoteId), w1, Advance(task, Applied), w2, Advance(task, Applied));
    longer := actions + [BeginRead(task, row.clientId, quoteId)] + [Advance(task, Applied)] + [Advance(task, Applied)];
  }

  lemma WriterWrites(w: World, task: TaskId)
    requires Coherent(w) && task in w.tasks && w.tasks[task].step.AtCacheWrite? && w.tasks[task].step.row.status == ACTIVE
    ensures Next(w, Advance(task, Applied)).Some?
    ensures var w' := Next(w, Advance(task, Applied)).value;
      ActiveEntry(w', w.tasks[task].quoteId) && w'.tasks.Keys == w.tasks.Keys && w'.core == w.core
  {
    assert TaskOk(w.core.db.quotes, w.core.clock, w.tasks[task]);
  }

  /** From a world with an ACTIVE copy about to be written: let it be written, then read it. */
  lemma WriteIsRead(start: World, actions: seq<Action>, w: World, quoteId: QuoteId, writer: TaskId)
    returns (longer: seq<Action>, task: TaskId)
    requires Run(start, actions) == Some(w) && start.tasks.Keys <= w.tasks.Keys
    requires Coherent(w) && ExecutedInTable(w, quoteId) && writer in w.tasks && w.tasks[writer].quoteId == quoteId
    requires w.tasks[writer].step.AtCacheWrite? && w.tasks[writer].step.row.status == ACTIVE
    ensures GoesStale(start, quoteId, longer, task)
  {
    WriterWrites(w, writer);
    NextKeepsCoherent(w, Advance(writer, Applied));
    RunAppend(start, actions, Advance(writer, Applied));
    longer, task := EntryIsRead(start, actions + [Advance(writer, Applied)], Next(w, Advance(writer, Applied)).value, quoteId);
  }

  lemma ExposedGoesStale(w: World, quoteId: QuoteId) returns (actions: seq<Action>, task: TaskId)
    requires Coherent(w) && ExecutedInTable(w, quoteId) && Exposed(w, quoteId)
    ensures GoesStale(w, quoteId, actions, task)
  {
    if ActiveEntry(w, quoteId) {
      actions, task := EntryIsRead(w, [], w, quoteId);
    } else {
      var id :| id in w.tasks && w.tasks[id].quoteId == quoteId && ActiveWriter(w.core.clock, w.tasks[id]);
      if w.tasks[id].step.AtCacheWrite? {
        actions, task := WriteIsRead(w, [], w, quoteId, id);
      } else {
        NextKeepsCoherent(w, Advance(id, Applied));
        RunAppend(w, [], Advance(id, Applied));
        actions, task := WriteIsRead(w, [] + [Advance(id, Applied)], Next(w, Advance(id, Applied)).value, quoteId, id);
      }
    }
  }

  /**
   * Once a quote is EXECUTED in the table, every read begun from now on says so in
   * every run, if and only if no live entry is ACTIVE and no task is between its
   * table read and its cache write with an ACTIVE copy.
   */
  lemma FreshExactlyWhenUnexposed(w: World, quoteId: QuoteId)
    requires Coherent(w) && ExecutedInTable(w, quoteId)
    ensures LaterReadsSayExecuted(w, quoteId) <==> !Exposed(w, quoteId)
  {
    if Exposed(w, quoteId) {
      var actions, task := ExposedGoesStale(w, quoteId);
      assert !LaterReadsSayExecuted(w, quoteId);
    } else {
      UnexposedStaysFresh(w, quoteId);
    }
  }

  // ---- Invalidation ----

  predicate NoActiveWriter(w: World, quoteId: QuoteId) {
    forall id :: id in w.tasks && w.tasks[id].quoteId == quoteId ==> !ActiveWriter(w.core.clock, w.tasks[id])
  }

  /** A commit that its caller hears of is followed by an invalidation of that very quote. */
  lemma HeardCommitInvalidates(w: World, id: CallId, invalidation: TaskId)
    requires id in w.core.calls && w.core.calls[id].phase.AtCommit? && w.core.calls[id].request.TradeRequest?
    requires invalidation !in w.tasks && Coherent(w)
    ensures Next(w, Trading(Protocol.Advance(id), invalidation)).Some?
    ensures var w' := Next(w, Trading(Protocol.Advance(id), invalidation)).value; var r := w.core.calls[id].request;
      && ExecutedInTable(w', r.quoteId)
      && w'.tasks == w.tasks[invalidation := Task(r.clientId, r.quoteId, AtInvalidate)]
  {
    Completion.CommitExecutes(w.core, id);
  }

  /** The delete takes the entry out of the cache, or fails softly, or is still on its way. */
  lemma InvalidationDeletes(w: World, task: TaskId, outcome: Outcome)
    requires task in w.tasks && w.tasks[task].step.AtInvalidate? && Next(w, Advance(task, outcome)).Some?
    ensures var w' := Next(w, Advance(task, outcome)).value; var quoteId := w.tasks[task].quoteId;
      && w'.tasks[task].step == Finished
      && w'.cache == (if outcome.Applied? then map q | q in w.cache && q != quoteId :: w.cache[q] else w.cache)
      && (outcome.Delayed? ==> outcome.orphan in w'.tasks && w'.tasks[outcome.orphan] == w.tasks[task])
  {
  }

  /** A delete that reaches the cache while no ACTIVE copy is on its way ends all staleness. */
  lemma InvalidationIsFinal(w: World, task: TaskId)
    requires Coherent(w) && task in w.tasks && w.tasks[task].step.AtInvalidate?
    requires ExecutedInTable(w, w.tasks[task].quoteId) && NoActiveWriter(w, w.tasks[task].quoteId)
    ensures Next(w, Advance(task, Applied)).Some?
    ensures LaterReadsSayExecuted(Next(w, Advance(task, Applied)).value, w.tasks[task].quoteId)
  {
    NextKeepsCoherent(w, Advance(task, Applied));
    UnexposedStaysFresh(Next(w, Advance(task, Applied)).value, w.tasks[task].quoteId);
  }

  /** A reader that read the table before the commit undoes the invalidation after it. */
  lemma ReaderUndoesInvalidation(w: World, task: TaskId)
    requires Coherent(w) && task in w.tasks && w.tasks[task].step.AtInvalidate?
    requires ExecutedInTable(w, w.tasks[task].quoteId) && !NoActiveWriter(w, w.tasks[task].quoteId)
    ensures Next(w, Advance(task, Applied)).Some?
    ensures !LaterReadsSayExecuted(Next(w, Advance(task, Applied)).value, w.tasks[task].quoteId)
  {
    var w', quoteId := Next(w, Advance(task, Applied)).value, w.tasks[task].quoteId;
    var id :| id in w.tasks && w.tasks[id].quoteId == quoteId && ActiveWriter(w.core.clock, w.tasks[id]);
    assert id in w'.tasks && w'.tasks[id] == w.tasks[id];
    NextKeepsCoherent(w, Advance(task, Applied));
    FreshExactlyWhenUnexposed(w', quoteId);
  }
}
