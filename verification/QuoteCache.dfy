/**
 * The read-through quote cache beside the quotes table: every cache call, table
 * read and clock read is a step of its own, interleaved with the trades of
 * Protocol, and every cache call may fail or take effect late.
 */
module QuoteCache {
  import opened Schema
  import opened Settlement
  import opened QuoteMapper
  import Protocol

  type TaskId = nat

  /** What a createQuote, getQuoteById or invalidateCache call is about to do. */
  datatype Step =
    | AtInsert(quote: Quote, computedAt: int)                  // createQuote: INSERT quotes
    | AtCacheRead                                              // loadQuote: getJson
    | AtTableRead                                              // loadQuote: SELECT
    | AtTtl(row: Quote)                                        // loadQuote: expiresAt - Date.now()
    | AtCacheWrite(row: Quote, ttlMs: int, computedAt: int)    // setJson
    | AtReply(found: Option<Quote>)                            // toQuoteResponse: Date.now()
    | AtInvalidate                                             // del
    | Finished
    | Replied(response: Option<QuoteResponse>, at: int)

  datatype Task = Task(clientId: ClientId, quoteId: QuoteId, step: Step)

  /** An entry lives until its deadline; the two times before it are kept for the proofs. */
  datatype CacheEntry = CacheEntry(value: CachedQuote, deadline: int, computedAt: int, writtenAt: int)

  datatype World = World(core: Protocol.State, cache: map<QuoteId, CacheEntry>, tasks: map<TaskId, Task>)

  /** How a cache call fares. The caller goes on in every case: each failure is soft. */
  datatype Outcome =
    | Applied
    | Lost                    // refused, timed out, or the value could not be read
    | Delayed(orphan: TaskId) // timed out for the caller; still reaches the cache later

  datatype Action =
    | Trading(action: Protocol.Action, invalidation: TaskId)
    | BeginCreate(task: TaskId, quoteId: QuoteId, quote: Quote)
    | BeginRead(task: TaskId, clientId: ClientId, quoteId: QuoteId)
    | Advance(task: TaskId, outcome: Outcome)
    | Evict(quoteId: QuoteId)

  /** GET: an entry past its deadline is gone. */
  function CacheGet(w: World, quoteId: QuoteId): Option<CachedQuote> {
    if quoteId in w.cache && w.core.clock < w.cache[quoteId].deadline then Some(w.cache[quoteId].value) else None
  }

  function At(w: World, task: TaskId, step: Step): World
    requires task in w.tasks
  {
    w.(tasks := w.tasks[task := w.tasks[task].(step := step)])
  }

  /** assertOwnedByClient and toQuoteResponse. */
  function Reply(found: Option<Quote>, clientId: ClientId, now: int): Option<QuoteResponse> {
    if found.Some? && found.value.clientId == clientId then Some(ToQuoteResponse(found.value, now)) else None
  }

  function AfterCacheRead(found: Option<CachedQuote>): Step {
    match found
    case None => AtTableRead
    case Some(cached) =>
      match DeserializeQuote(cached)
      case None => Finished
      case Some(row) => AtReply(Some(row))
  }

  function AfterTtl(row: Quote, now: int): Step {
    if row.expiresAt - now > 0 then AtCacheWrite(row, row.expiresAt - now, now) else AtReply(Some(row))
  }

  /** SET ... PX ttlMs; whatever the outcome, the caller goes on to its reply. */
  function CacheSet(w: World, task: TaskId, outcome: Outcome): Option<World>
    requires task in w.tasks && w.tasks[task].step.AtCacheWrite?
  {
    var t := w.tasks[task];
    var gone := At(w, task, AtReply(Some(t.step.row)));
    match outcome
    case Applied =>
      var entry := CacheEntry(SerializeQuote(t.step.row), w.core.clock + t.step.ttlMs, t.step.computedAt, w.core.clock);
      Some(gone.(cache := w.cache[t.quoteId := entry]))
    case Lost => Some(gone)
    case Delayed(orphan) => if orphan in w.tasks then None else Some(gone.(tasks := gone.tasks[orphan := t]))
  }

  function CacheDelete(w: World, task: TaskId, outcome: Outcome): Option<World>
    requires task in w.tasks
  {
    var gone := At(w, task, Finished);
    match outcome
    case Applied => Some(gone.(cache := w.cache - {w.tasks[task].quoteId}))
    case Lost => Some(gone)
    case Delayed(orphan) => if orphan in w.tasks then None else Some(gone.(tasks := gone.tasks[orphan := w.tasks[task]]))
  }

  ghost function Move(w: World, task: TaskId, outcome: Outcome): Option<World>
    requires task in w.tasks
  {
    var t := w.tasks[task];
    match t.step
    case AtInsert(quote, computedAt) =>
      (match Protocol.Apply(w.core, Protocol.AddQuote(t.quoteId, quote))
       case None => None
       case Some(core) => Some(At(w, task, AtCacheWrite(quote, QUOTE_TTL_MS, computedAt)).(core := core)))
    case AtCacheRead => Some(At(w, task, AfterCacheRead(if outcome.Applied? then CacheGet(w, t.quoteId) else None)))
    case AtTableRead =>
      var quotes := w.core.db.quotes;
      Some(At(w, task, if t.quoteId in quotes then AtTtl(quotes[t.quoteId]) else AtReply(None)))
    case AtTtl(row) => Some(At(w, task, AfterTtl(row, w.core.clock)))
    case AtCacheWrite(_, _, _) => CacheSet(w, task, outcome)
    case AtReply(found) => Some(At(w, task, Replied(Reply(found, t.clientId, w.core.clock), w.core.clock)))
    case AtInvalidate => CacheDelete(w, task, outcome)
    case Finished => None
    case Replied(_, _) => None
  }

  /** A trade whose commit its caller hears of goes on to invalidate the cache. */
  ghost predicate CommitsTrade(core: Protocol.State, action: Protocol.Action) {
    Protocol.Commits(core, action) && action.Advance? && core.calls[action.id].request.TradeRequest?
  }

  ghost function AfterTrading(w: World, action: Protocol.Action, invalidation: TaskId): Option<World> {
    match Protocol.Apply(w.core, action)
    case None => None
    case Some(core) =>
      if !CommitsTrade(w.core, action) then Some(w.(core := core))
      else if invalidation in w.tasks then None
      else
        var r := w.core.calls[action.id].request;
        Some(w.(core := core, tasks := w.tasks[invalidation := Task(r.clientId, r.quoteId, AtInvalidate)]))
  }

  ghost function Next(w: World, action: Action): Option<World> {
    match action
    case Trading(a, invalidation) =>
      if a.AddQuote? then None else AfterTrading(w, a, invalidation)
    case BeginCreate(task, quoteId, quote) =>
      if task in w.tasks || !StorableQuote(quote) || quote.expiresAt != w.core.clock + QUOTE_TTL_MS then None
      else Some(w.(tasks := w.tasks[task := Task(quote.clientId, quoteId, AtInsert(quote, w.core.clock))]))
    case BeginRead(task, clientId, quoteId) =>
      if task in w.tasks then None
      else Some(w.(tasks := w.tasks[task := Task(clientId, quoteId, AtCacheRead)]))
    case Advance(task, outcome) => if task in w.tasks then Move(w, task, outcome) else None
    case Evict(quoteId) => Some(w.(cache := w.cache - {quoteId}))
  }

  ghost function Run(start: World, actions: seq<Action>): Option<World> {
    if actions == [] then Some(start)
    else
      var before := Run(start, actions[..|actions| - 1]);
      if before.None? then None else Next(before.value, actions[|actions| - 1])
  }
}
