/** What the quote cache can and cannot show, over every interleaving. */
module CacheCoherence {
  import opened Schema
  import opened Settlement
  import opened LedgerInvariant
  import opened QuoteMapper
  import opened QuoteCache
  import Protocol
  import ProtocolInvariant
  import ProtocolRuns
  import opened Lifecycle

  // ---- The invariant ----

  /** A copy of a stored row: every field but the status agrees, and the status is never ahead. */
  predicate Agrees(quotes: map<QuoteId, Quote>, quoteId: QuoteId, copy: Quote) {
    && quoteId in quotes
    && copy.(status := quotes[quoteId].status) == quotes[quoteId]
    && (copy.status == EXECUTED ==> quotes[quoteId].status == EXECUTED)
  }

  /** The entry outlives the quote by exactly as long as its write came after its TTL. */
  predicate EntryOk(quotes: map<QuoteId, Quote>, clock: int, quoteId: QuoteId, e: CacheEntry) {
    && DeserializeQuote(e.value).Some?
    && var row := DeserializeQuote(e.value).value;
      && Agrees(quotes, quoteId, row)
      && e.computedAt <= e.writtenAt <= clock
      && e.deadline == row.expiresAt + (e.writtenAt - e.computedAt)
  }

  ghost predicate ResponseOk(quotes: map<QuoteId, Quote>, t: Task, response: QuoteResponse, at: int) {
    && t.quoteId in quotes && quotes[t.quoteId].clientId == t.clientId
    && exists copy :: Agrees(quotes, t.quoteId, copy) && response == ToQuoteResponse(copy, at)
  }

  ghost predicate TaskOk(quotes: map<QuoteId, Quote>, clock: int, t: Task) {
    match t.step
    case AtInsert(quote, computedAt) =>
      StorableQuote(quote) && quote.clientId == t.clientId && computedAt <= clock && quote.expiresAt == computedAt + QUOTE_TTL_MS
    case AtTtl(row) => Agrees(quotes, t.quoteId, row)
    case AtCacheWrite(row, ttlMs, computedAt) =>
      Agrees(quotes, t.quoteId, row) && computedAt <= clock && ttlMs == row.expiresAt - computedAt > 0
    case AtReply(found) => found.Some? ==> Agrees(quotes, t.quoteId, found.value)
    case Replied(response, at) => at <= clock && (response.Some? ==> ResponseOk(quotes, t, response.value, at))
    case _ => true
  }

  predicate CacheOk(quotes: map<QuoteId, Quote>, clock: int, cache: map<QuoteId, CacheEntry>) {
    forall id :: id in cache ==> EntryOk(quotes, clock, id, cache[id])
  }

  ghost predicate TasksOk(quotes: map<QuoteId, Quote>, clock: int, tasks: map<TaskId, Task>) {
    forall id :: id in tasks ==> TaskOk(quotes, clock, tasks[id])
  }

  ghost predicate Coherent(w: World) {
    && ProtocolInvariant.Inv(w.core)
    && CacheOk(w.core.db.quotes, w.core.clock, w.cache)
    && TasksOk(w.core.db.quotes, w.core.clock, w.tasks)
  }

  // ---- Rows move on under the cache ----

  lemma StillAgrees(quotes: map<QuoteId, Quote>, after: map<QuoteId, Quote>, quoteId: QuoteId, copy: Quote)
    requires OnlyForward(quotes, after) && Agrees(quotes, quoteId, copy)
    ensures Agrees(after, quoteId, copy)
  {
  }

  lemma TaskStillOk(quotes: map<QuoteId, Quote>, after: map<QuoteId, Quote>, clock: int, later: int, t: Task)
    requires OnlyForward(quotes, after) && clock <= later && TaskOk(quotes, clock, t)
    ensures TaskOk(after, later, t)
  {
    match t.step
    case AtTtl(row) => StillAgrees(quotes, after, t.quoteId, row);
    case AtCacheWrite(row, _, _) => StillAgrees(quotes, after, t.quoteId, row);
    case AtReply(found) => if found.Some? { StillAgrees(quotes, after, t.quoteId, found.value); }
    case Replied(response, at) =>
      if response.Some? {
        var copy :| Agrees(quotes, t.quoteId, copy) && response.value == ToQuoteResponse(copy, at);
        StillAgrees(quotes, after, t.quoteId, copy);
      }
    case _ =>
  }

  lemma AllStillOk(quotes: map<QuoteId, Quote>, after: map<QuoteId, Quote>, clock: int, later: int,
                   cache: map<QuoteId, CacheEntry>, tasks: map<TaskId, Task>)
    requires OnlyForward(quotes, after) && clock <= later
    requires CacheOk(quotes, clock, cache) && TasksOk(quotes, clock, tasks)
    ensures CacheOk(after, later, cache) && TasksOk(after, later, tasks)
  {
    forall id | id in cache ensures EntryOk(after, later, id, cache[id]) {
      StillAgrees(quotes, after, id, DeserializeQuote(cache[id].value).value);
    }
    forall id | id in tasks ensures TaskOk(after, later, tasks[id]) {
      TaskStillOk(quotes, after, clock, later, tasks[id]);
    }
  }

  lemma CoreMoves(core: Protocol.State, action: Protocol.Action)
    requires ProtocolInvariant.Inv(core) && Protocol.Apply(core, action).Some?
    ensures var after := Protocol.Apply(core, action).value;
      ProtocolInvariant.Inv(after) && OnlyForward(core.db.quotes, after.db.quotes) && core.clock <= after.clock
  {
    ProtocolRuns.ApplyKeepsInv(core, action);
    ApplyOnlyForward(core, action);
  }

  // ---- Every action keeps it ----

  lemma TradingShape(w: World, action: Protocol.Action, invalidation: TaskId)
    requires AfterTrading(w, action, invalidation).Some?
    ensures Protocol.Apply(w.core, action).Some?
    ensures var w' := AfterTrading(w, action, invalidation).value;
      && w'.core == Protocol.Apply(w.core, action).value && w'.cache == w.cache
      && (forall id :: id in w'.tasks ==> w'.tasks[id].step.AtInvalidate? || (id in w.tasks && w'.tasks[id] == w.tasks[id]))
  {
  }

  lemma TradingKeeps(w: World, action: Protocol.Action, invalidation: TaskId)
    requires Coherent(w) && AfterTrading(w, action, invalidation).Some?
    ensures Coherent(AfterTrading(w, action, invalidation).value)
  {
    TradingShape(w, action, invalidation);
    CoreMoves(w.core, action);
    var w' := AfterTrading(w, action, invalidation).value;
    TablesMoved(w.core.db.quotes, w'.core.db.quotes, w.core.clock, w'.core.clock, w, w');
  }

  lemma TablesMoved(quotes: map<QuoteId, Quote>, after: map<QuoteId, Quote>, clock: int, later: int, w: World, w': World)
    requires OnlyForward(quotes, after) && clock <= later && w'.cache == w.cache
    requires CacheOk(quotes, clock, w.cache) && TasksOk(quotes, clock, w.tasks)
    requires forall id :: id in w'.tasks ==> w'.tasks[id].step.AtInvalidate? || (id in w.tasks && w'.tasks[id] == w.tasks[id])
    ensures CacheOk(after, later, w'.cache) && TasksOk(after, later, w'.tasks)
  {
    AllStillOk(quotes, after, clock, later, w.cache, w.tasks);
    forall id | id in w'.tasks ensures TaskOk(after, later, w'.tasks[id]) {
      if !w'.tasks[id].step.AtInvalidate? { assert TaskOk(after, later, w.tasks[id]); }
    }
  }

  lemma InsertKeeps(w: World, task: TaskId, outcome: Outcome)
    requires Coherent(w) && task in w.tasks && w.tasks[task].step.AtInsert? && Move(w, task, outcome).Some?
    ensures Coherent(Move(w, task, outcome).value)
  {
    var t := w.tasks[task];
    var add := Protocol.AddQuote(t.quoteId, t.step.quote);
    CoreMoves(w.core, add);
    var core := Protocol.Apply(w.core, add).value;
    assert TaskOk(w.core.db.quotes, w.core.clock, t);
    AllStillOk(w.core.db.quotes, core.db.quotes, w.core.clock, core.clock, w.cache, w.tasks);
  }

  /** The rest of the steps leave the tables alone. */
  lemma ReplyKeeps(quotes: map<QuoteId, Quote>, clock: int, t: Task)
    requires t.step.AtReply? && TaskOk(quotes, clock, t)
    ensures TaskOk(quotes, clock, t.(step := Replied(Reply(t.step.found, t.clientId, clock), clock)))
  {
    if t.step.found.Some? {
      assert Agrees(quotes, t.quoteId, t.step.found.value);
    }
  }

  lemma ReadKeeps(w: World, task: TaskId, outcome: Outcome)
    requires Coherent(w) && task in w.tasks && Move(w, task, outcome).Some?
    requires !w.tasks[task].step.AtInsert? && !w.tasks[task].step.AtCacheWrite? && !w.tasks[task].step.AtInvalidate?
    ensures Coherent(Move(w, task, outcome).value)
  {
    var t := w.tasks[task];
    assert TaskOk(w.core.db.quotes, w.core.clock, t);
    if t.step.AtReply? { ReplyKeeps(w.core.db.quotes, w.core.clock, t); }
    assert t.quoteId in w.cache ==> EntryOk(w.core.db.quotes, w.core.clock, t.quoteId, w.cache[t.quoteId]);
    assert TaskOk(w.core.db.quotes, w.core.clock, Move(w, task, outcome).value.tasks[task]);
  }

  lemma SetKeeps(w: World, task: TaskId, outcome: Outcome)
    requires CacheOk(w.core.db.quotes, w.core.clock, w.cache) && TasksOk(w.core.db.quotes, w.core.clock, w.tasks)
    requires task in w.tasks && w.tasks[task].step.AtCacheWrite? && CacheSet(w, task, outcome).Some?
    ensures var w' := CacheSet(w, task, outcome).value;
      w'.core == w.core && CacheOk(w.core.db.quotes, w.core.clock, w'.cache) && TasksOk(w.core.db.quotes, w.core.clock, w'.tasks)
  {
    assert TaskOk(w.core.db.quotes, w.core.clock, w.tasks[task]);
    CachedRowRoundTrip(w.tasks[task].step.row);
  }

  lemma WriteKeeps(w: World, task: TaskId, outcome: Outcome)
    requires Coherent(w) && task in w.tasks && Move(w, task, outcome).Some?
    requires w.tasks[task].step.AtCacheWrite? || w.tasks[task].step.AtInvalidate?
    ensures Coherent(Move(w, task, outcome).value)
  {
    if w.tasks[task].step.AtCacheWrite? {
      SetKeeps(w, task, outcome);
    } else {
      assert TaskOk(w.core.db.quotes, w.core.clock, w.tasks[task]);
    }
  }

  lemma NextKeepsCoherent(w: World, action: Action)
    requires Coherent(w) && Next(w, action).Some?
    ensures Coherent(Next(w, action).value)
  {
    match action
    case Trading(a, invalidation) => TradingKeeps(w, a, invalidation);
    case BeginCreate(_, _, _) =>
    case BeginRead(_, _, _) =>
    case Advance(task, outcome) =>
      if w.tasks[task].step.AtInsert? { InsertKeeps(w, task, outcome); }
      else if w.tasks[task].step.AtCacheWrite? || w.tasks[task].step.AtInvalidate? { WriteKeeps(w, task, outcome); }
      else { ReadKeeps(w, task, outcome); }
    case Evict(_) =>
  }

  lemma {:induction false} RunKeepsCoherent(w: World, actions: seq<Action>)
    requires Coherent(w) && Run(w, actions).Some?
    ensures Coherent(Run(w, actions).value)
  {
    if actions != [] {
      RunKeepsCoherent(w, actions[..|actions| - 1]);
      NextKeepsCoherent(Run(w, actions[..|actions| - 1]).value, actions[|actions| - 1]);
    }
  }

  function Start(db: Database, now: int, errorsWrapped: bool): World {
    World(Protocol.Start(db, now, errorsWrapped), map[], map[])
  }

  // ---- What the cache holds, what responses say ----

  /**
   * In every reachable state a cached quote is the stored one in every field but
   * the status, a cached EXECUTED is stored EXECUTED, and the entry is gone
   * at expiresAt plus the delay between computing its TTL and writing it.
   */
  lemma CacheAgreesWithTable(db: Database, now: int, errorsWrapped: bool, actions: seq<Action>, quoteId: QuoteId)
    requires Consistent(db) && Run(Start(db, now, errorsWrapped), actions).Some?
    requires quoteId in Run(Start(db, now, errorsWrapped), actions).value.cache
    ensures var w := Run(Start(db, now, errorsWrapped), actions).value;
      var e := w.cache[quoteId];
      && DeserializeQuote(e.value).Some?
      && Agrees(w.core.db.quotes, quoteId, DeserializeQuote(e.value).value)
      && (w.core.clock >= w.core.db.quotes[quoteId].expiresAt + (e.writtenAt - e.computedAt) ==> CacheGet(w, quoteId).None?)
  {
    StartIsCoherent(db, now, errorsWrapped);
    RunKeepsCoherent(Start(db, now, errorsWrapped), actions);
    var w := Run(Start(db, now, errorsWrapped), actions).value;
    assert EntryOk(w.core.db.quotes, w.core.clock, quoteId, w.cache[quoteId]);
  }

  lemma StartIsCoherent(db: Database, now: int, errorsWrapped: bool)
    requires Consistent(db)
    ensures Coherent(Start(db, now, errorsWrapped))
  {
    ProtocolRuns.StartIsFine(db, now, errorsWrapped);
  }

  /**
   * Whatever the cache held, a response says ACTIVE only if it was evaluated before
   * the quote expires, EXECUTED only if the table says so, goes to the quote's own
   * client, and shows the stored amounts exactly.
   */
  lemma ResponsesAreBounded(db: Database, now: int, errorsWrapped: bool, actions: seq<Action>, task: TaskId)
    requires Consistent(db) && Run(Start(db, now, errorsWrapped), actions).Some?
    requires var w := Run(Start(db, now, errorsWrapped), actions).value;
      task in w.tasks && w.tasks[task].step.Replied? && w.tasks[task].step.response.Some?
    ensures var w := Run(Start(db, now, errorsWrapped), actions).value;
      var t := w.tasks[task];
      && t.quoteId in w.core.db.quotes
      && ResponseMatches(w.core.db.quotes[t.quoteId], t.clientId, t.step.response.value, t.step.at)
  {
    StartIsCoherent(db, now, errorsWrapped);
    RunKeepsCoherent(Start(db, now, errorsWrapped), actions);
    var w := Run(Start(db, now, errorsWrapped), actions).value;
    var t := w.tasks[task];
    assert TaskOk(w.core.db.quotes, w.core.clock, t);
    StoredQuotesAreStorable(w.core, t.quoteId);
    OkResponseMatches(w.core.db.quotes, t, t.step.response.value, t.step.at);
  }

  predicate ResponseMatches(row: Quote, clientId: ClientId, response: QuoteResponse, at: int) {
    && row.clientId == clientId
    && (response.status == Stored(ACTIVE) ==> at < row.expiresAt)
    && (response.status == Stored(EXECUTED) ==> row.status == EXECUTED)
    && (response.status == EXPIRED ==> at >= row.expiresAt)
    && Shows(response.baseAmount, row.baseAmountMinor)
    && Shows(response.quoteAmount, row.quoteAmountMinor)
    && response.price == row.price && response.side == row.side && response.expiresAt == row.expiresAt
    && response.baseCurrency == row.baseCurrency && response.quoteCurrency == row.quoteCurrency
  }

  lemma StoredQuotesAreStorable(core: Protocol.State, quoteId: QuoteId)
    requires ProtocolInvariant.Inv(core) && quoteId in core.db.quotes
    ensures StorableQuote(core.db.quotes[quoteId].(status := ACTIVE))
  {
  }

  lemma OkResponseMatches(quotes: map<QuoteId, Quote>, t: Task, response: QuoteResponse, at: int)
    requires ResponseOk(quotes, t, response, at) && StorableQuote(quotes[t.quoteId].(status := ACTIVE))
    ensures ResponseMatches(quotes[t.quoteId], t.clientId, response, at)
  {
    var copy :| Agrees(quotes, t.quoteId, copy) && response == ToQuoteResponse(copy, at);
    assert copy.(status := ACTIVE) == quotes[t.quoteId].(status := ACTIVE);
    ResponseIsFaithful(copy, at);
  }
}
