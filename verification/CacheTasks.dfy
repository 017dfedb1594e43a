/** What a creation and a read of a quote come to when nothing comes between their steps. */
module CacheTasks {
  import opened Schema
  import opened Settlement
  import opened QuoteMapper
  import opened QuoteCache
  import Protocol

  /** The world after n of its steps in a row, every cache call going through. */
  ghost function Undisturbed(w: World, task: TaskId, n: nat): Option<World>
    decreases n
  {
    if n == 0 then Some(w)
    else
      match Next(w, Advance(task, Applied))
      case None => None
      case Some(after) => Undisturbed(after, task, n - 1)
  }

  lemma OneStep(w: World, task: TaskId, after: World, n: nat)
    requires Next(w, Advance(task, Applied)) == Some(after)
    ensures Undisturbed(w, task, n + 1) == Undisturbed(after, task, n)
  {
  }

  // ---- Single steps ----

  /** The owner is shown the row, anybody else nothing. */
  function Shown(row: Quote, clientId: ClientId, now: int): Step {
    Replied(if row.clientId == clientId then Some(ToQuoteResponse(row, now)) else None, now)
  }

  lemma Replies(w: World, task: TaskId, row: Quote)
    requires task in w.tasks && w.tasks[task].step == AtReply(Some(row))
    ensures Next(w, Advance(task, Applied)) == Some(At(w, task, Shown(row, w.tasks[task].clientId, w.core.clock)))
  {
  }

  lemma Writes(w: World, task: TaskId, row: Quote, ttlMs: int, computedAt: int)
    requires task in w.tasks && w.tasks[task].step == AtCacheWrite(row, ttlMs, computedAt)
    ensures Next(w, Advance(task, Applied)) == Some(At(w, task, AtReply(Some(row))).(cache :=
      w.cache[w.tasks[task].quoteId := CacheEntry(SerializeQuote(row), w.core.clock + ttlMs, computedAt, w.core.clock)]))
  {
  }

  lemma ComputesTtl(w: World, task: TaskId, row: Quote)
    requires task in w.tasks && w.tasks[task].step == AtTtl(row)
    ensures Next(w, Advance(task, Applied)) == Some(At(w, task,
      if w.core.clock < row.expiresAt then AtCacheWrite(row, row.expiresAt - w.core.clock, w.core.clock) else AtReply(Some(row))))
  {
  }

  lemma Misses(w: World, task: TaskId)
    requires task in w.tasks && w.tasks[task].step.AtCacheRead? && CacheGet(w, w.tasks[task].quoteId).None?
    ensures Next(w, Advance(task, Applied)) == Some(At(w, task, AtTableRead))
  {
  }

  lemma ReadsTable(w: World, task: TaskId)
    requires task in w.tasks && w.tasks[task].step.AtTableRead? && w.tasks[task].quoteId in w.core.db.quotes
    ensures Next(w, Advance(task, Applied)) == Some(At(w, task, AtTtl(w.core.db.quotes[w.tasks[task].quoteId])))
  {
  }

  lemma Inserts(w: World, task: TaskId)
    requires task in w.tasks && w.tasks[task].step.AtInsert? && w.tasks[task].quoteId !in w.core.db.quotes
    requires StorableQuote(w.tasks[task].step.quote)
    ensures Next(w, Advance(task, Applied)).Some?
    ensures var t := w.tasks[task]; var after := Next(w, Advance(task, Applied)).value;
      && after.core.db == w.core.db.(quotes := w.core.db.quotes[t.quoteId := t.step.quote]) && after.core.clock == w.core.clock
      && after.cache == w.cache
      && after.tasks == w.tasks[task := t.(step := AtCacheWrite(t.step.quote, 15 * 1000, t.step.computedAt))]
  {
  }

  // ---- Whole tasks ----

  lemma AtAgain(w: World, task: TaskId, a: Step, b: Step)
    requires task in w.tasks
    ensures At(At(w, task, a), task, b) == At(w, task, b)
  {
  }

  lemma WriteAndReply(w: World, task: TaskId, row: Quote, ttlMs: int, computedAt: int)
    requires task in w.tasks && w.tasks[task].step == AtCacheWrite(row, ttlMs, computedAt)
    ensures var t, now := w.tasks[task], w.core.clock;
      Undisturbed(w, task, 2) == Some(At(w, task, Shown(row, t.clientId, now)).(cache :=
        w.cache[t.quoteId := CacheEntry(SerializeQuote(row), now + ttlMs, computedAt, now)]))
  {
    var t, now := w.tasks[task], w.core.clock;
    var written := At(w, task, AtReply(Some(row))).(cache :=
      w.cache[t.quoteId := CacheEntry(SerializeQuote(row), now + ttlMs, computedAt, now)]);
    Writes(w, task, row, ttlMs, computedAt);
    OneStep(w, task, written, 1);
    Replies(written, task, row);
    OneStep(written, task, At(written, task, Shown(row, t.clientId, now)), 0);
    AtAgain(w, task, AtReply(Some(row)), Shown(row, t.clientId, now));
  }

  lemma FoundInTable(w: World, task: TaskId, n: nat)
    requires task in w.tasks && w.tasks[task].step.AtCacheRead? && CacheGet(w, w.tasks[task].quoteId).None?
    requires w.tasks[task].quoteId in w.core.db.quotes
    ensures var row := w.core.db.quotes[w.tasks[task].quoteId];
      Undisturbed(w, task, n + 2) == Undisturbed(At(w, task, AtTtl(row)), task, n)
  {
    var row := w.core.db.quotes[w.tasks[task].quoteId];
    var missed := At(w, task, AtTableRead);
    Misses(w, task);
    ReadsTable(missed, task);
    AtAgain(w, task, AtTableRead, AtTtl(row));
    OneStep(w, task, missed, n + 1);
    OneStep(missed, task, At(w, task, AtTtl(row)), n);
  }

  /** Before the expiry the row found is cached until then, and shown. */
  lemma FoundInTime(w: World, task: TaskId, row: Quote)
    requires task in w.tasks && w.tasks[task].step == AtTtl(row) && w.core.clock < row.expiresAt
    ensures var t, now := w.tasks[task], w.core.clock;
      Undisturbed(w, task, 3) == Some(At(w, task, Shown(row, t.clientId, now)).(cache :=
        w.cache[t.quoteId := CacheEntry(SerializeQuote(row), row.expiresAt, now, now)]))
  {
    var now := w.core.clock;
    var writing := At(w, task, AtCacheWrite(row, row.expiresAt - now, now));
    ComputesTtl(w, task, row);
    OneStep(w, task, writing, 2);
    WriteAndReply(writing, task, row, row.expiresAt - now, now);
    AtAgain(w, task, writing.tasks[task].step, Shown(row, w.tasks[task].clientId, now));
  }

  /**
   * A read that misses the cache before the quote expires shows its owner the stored
   * row, and leaves it in the cache until exactly its expiry.
   */
  lemma UndisturbedRead(w: World, task: TaskId, row: Quote)
    requires task in w.tasks && w.tasks[task].step.AtCacheRead? && CacheGet(w, w.tasks[task].quoteId).None?
    requires w.tasks[task].quoteId in w.core.db.quotes && row == w.core.db.quotes[w.tasks[task].quoteId]
    requires w.core.clock < row.expiresAt
    ensures var t, now := w.tasks[task], w.core.clock;
      Undisturbed(w, task, 5) == Some(At(w, task, Shown(row, t.clientId, now)).(cache :=
        w.cache[t.quoteId := CacheEntry(SerializeQuote(row), row.expiresAt, now, now)]))
  {
    FoundInTable(w, task, 3);
    FoundInTime(At(w, task, AtTtl(row)), task, row);
    AtAgain(w, task, AtTtl(row), Shown(row, w.tasks[task].clientId, w.core.clock));
  }

  /** Once the quote has expired such a read shows the stored row and leaves the cache alone. */
  lemma UndisturbedLateRead(w: World, task: TaskId, row: Quote)
    requires task in w.tasks && w.tasks[task].step.AtCacheRead? && CacheGet(w, w.tasks[task].quoteId).None?
    requires w.tasks[task].quoteId in w.core.db.quotes && row == w.core.db.quotes[w.tasks[task].quoteId]
    requires w.core.clock >= row.expiresAt
    ensures Undisturbed(w, task, 4) == Some(At(w, task, Shown(row, w.tasks[task].clientId, w.core.clock)))
  {
    var found, reply := At(w, task, AtTtl(row)), At(w, task, AtReply(Some(row)));
    FoundInTable(w, task, 2);
    ComputesTtl(found, task, row);
    AtAgain(w, task, AtTtl(row), AtReply(Some(row)));
    OneStep(found, task, reply, 1);
    Replies(reply, task, row);
    AtAgain(w, task, AtReply(Some(row)), Shown(row, w.tasks[task].clientId, w.core.clock));
    OneStep(reply, task, At(w, task, Shown(row, w.tasks[task].clientId, w.core.clock)), 0);
  }

  /** A creation stores the row, caches it for 15 s from its cache write, and shows it to its client. */
  lemma UndisturbedCreation(w: World, task: TaskId)
    requires task in w.tasks && w.tasks[task].step.AtInsert? && w.tasks[task].quoteId !in w.core.db.quotes
    requires StorableQuote(w.tasks[task].step.quote)
    ensures Undisturbed(w, task, 3).Some?
    ensures var t, now, after := w.tasks[task], w.core.clock, Undisturbed(w, task, 3).value;
      && after.core.db == w.core.db.(quotes := w.core.db.quotes[t.quoteId := t.step.quote])
      && after.cache == w.cache[t.quoteId := CacheEntry(SerializeQuote(t.step.quote), now + 15 * 1000, t.step.computedAt, now)]
      && after.tasks == w.tasks[task := t.(step := Shown(t.step.quote, t.clientId, now))]
  {
    var t := w.tasks[task];
    Inserts(w, task);
    var writing := Next(w, Advance(task, Applied)).value;
    OneStep(w, task, writing, 2);
    WriteAndReply(writing, task, t.step.quote, 15 * 1000, t.step.computedAt);
  }
}
