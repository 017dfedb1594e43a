/**
 * Any number of executeTrade and createDeposit calls running interleaved, one
 * SQL statement (or one row of a multi-row statement) a step. A transaction's
 * writes stay private until its commit; its locks are held until it ends.
 */
module Protocol {
  import opened Schema
  import opened Settlement
  import opened Strings

  // ---- One call ----

  datatype Request =
    | TradeRequest(clientId: ClientId, quoteId: QuoteId, key: string)
    | DepositRequest(leg: Leg)

  /** Row locks and in-flight unique-index entries: both make others wait until the holder ends. */
  datatype Lock =
    | RowLock(account: Account)
    | QuoteLock(quoteId: QuoteId)
    | QuoteIndex(quoteId: QuoteId)
    | KeyIndex(clientId: ClientId, key: string)

  datatype Answer =
    | Created(trade: Trade)    // 201
    | Replayed(trade: Trade)   // 200
    | KeyConflict              // 409: the key settled a different quote
    | Refused(why: Refusal)
    | Deposited
    | ServerError              // 500: a rethrown error or a lost connection

  /** The statement a call is about to run. */
  datatype Phase =
    | AtLookup              // findByIdempotencyKey, before the transaction
    | AtQuoteLock           // SELECT quotes ... FOR UPDATE
    | AtQuoteCheck          // owner, status, expiry
    | AtRowInsert(next: nat) // INSERT balances ... ON CONFLICT DO NOTHING, row by row
    | AtRowLock(next: nat)  // SELECT balances ... ORDER BY currency FOR UPDATE, row by row
    | AtDebit               // guarded UPDATE balances
    | AtDebitEntry          // INSERT ledger_entries
    | AtCredit              // upsert of balances
    | AtCreditEntry         // INSERT ledger_entries
    | AtTradeInsert         // INSERT trades: unique index on quote_id
    | AtKeyIndex            // INSERT trades: unique index on (client_id, idempotency_key)
    | AtQuoteFlip           // UPDATE quotes SET status
    | AtCommit
    | AtRaceLookup          // findByIdempotencyKey in the catch block
    | Answered(answer: Answer)

  datatype CallRecord = CallRecord(
    request: Request, phase: Phase, quote: Option<Quote>, checkedAt: int,
    writes: map<Account, int>, entries: seq<Entry>, trade: Option<Trade>, flipped: bool,
    locks: set<Lock>)

  /** Where a statement stands in the text of executeTrade. */
  function Position(p: Phase): nat {
    match p
    case AtLookup => 0
    case AtQuoteLock => 1
    case AtQuoteCheck => 2
    case AtRowInsert(_) => 3
    case AtRowLock(_) => 4
    case AtDebit => 5
    case AtDebitEntry => 6
    case AtCredit => 7
    case AtCreditEntry => 8
    case AtTradeInsert => 9
    case AtKeyIndex => 10
    case AtQuoteFlip => 11
    case AtCommit => 12
    case AtRaceLookup => 13
    case Answered(_) => 14
  }

  /** Statements only executeTrade runs; a deposit shares the others. */
  predicate TradeOnly(p: Phase) {
    Position(p) in {0, 1, 2, 5, 6, 9, 10, 11, 13}
  }

  /** Statements that run with the quote row in hand. */
  predicate HasQuote(p: Phase) {
    2 <= Position(p) <= 12
  }

  predicate AfterCheck(p: Phase) {
    3 <= Position(p) <= 12
  }

  /** Statements that run with every balance row locked. */
  predicate RowsLocked(p: Phase) {
    5 <= Position(p) <= 12
  }

  /** A trade's legs come from its quote, a deposit's from the request. */
  predicate LegsKnown(r: Request, q: Option<Quote>) {
    r.TradeRequest? ==> q.Some?
  }

  function Accounts(r: Request, q: Option<Quote>): (accounts: seq<Account>)
    requires LegsKnown(r, q)
    ensures 1 <= |accounts| <= 2
    ensures |accounts| == 2 ==> accounts[0] != accounts[1]
    ensures r.TradeRequest? ==> accounts[0] == DebitLeg(q.value).account && accounts[|accounts| - 1] == CreditLeg(q.value).account
    ensures r.DepositRequest? ==> accounts == [r.leg.account]
  {
    match r
    case TradeRequest(_, _, _) => TouchedAccounts(q.value)
    case DepositRequest(leg) => [leg.account]
  }

  function LockOrder(r: Request, q: Option<Quote>): (accounts: seq<Account>)
    requires LegsKnown(r, q)
    ensures |accounts| == |Accounts(r, q)|
    ensures forall a :: a in accounts <==> a in Accounts(r, q)
    ensures |accounts| == 2 ==> accounts[0].currency < accounts[1].currency
  {
    var accounts := Accounts(r, q);
    if |accounts| == 2 && accounts[1].currency < accounts[0].currency then [accounts[1], accounts[0]] else accounts
  }

  function Credited(r: Request, q: Option<Quote>): Leg
    requires LegsKnown(r, q)
  {
    match r
    case TradeRequest(_, _, _) => CreditLeg(q.value)
    case DepositRequest(leg) => leg
  }

  function RefOf(r: Request, id: CallId): Ref {
    if r.TradeRequest? then TradeRef(id) else DepositRef(id)
  }

  predicate Shaped(c: CallRecord) {
    && (TradeOnly(c.phase) ==> c.request.TradeRequest?)
    && (c.request.TradeRequest? && HasQuote(c.phase) ==> c.quote.Some?)
    && (c.phase.AtRowInsert? ==> c.phase.next < |Accounts(c.request, c.quote)|)
    && (c.phase.AtRowLock? ==> c.phase.next < |Accounts(c.request, c.quote)|)
  }

  type Call = c: CallRecord | Shaped(c)
    witness NewCall(TradeRequest(0, 0, ""), AtLookup)

  function NewCall(request: Request, phase: Phase): CallRecord {
    CallRecord(request, phase, None, 0, map[], [], None, false, {})
  }

  /** The transaction is over and nothing of it is left with the call. */
  function Ended(c: Call, answer: Answer): Call {
    NewCall(c.request, Answered(answer))
  }

  // ---- The whole system ----

  datatype State = State(
    db: Database,                 // committed rows
    calls: map<CallId, Call>,
    clock: int,                   // Date.now()
    errorsWrapped: bool,          // the driver hides `code` and `constraint` from isUniqueViolation
    history: seq<Operation>)      // committed operations, in commit order

  ghost predicate HeldByOther(s: State, id: CallId, lock: Lock) {
    exists u :: u in s.calls && u != id && lock in s.calls[u].locks
  }

  datatype Attempt =
    | Wait(lock: Lock)
    | Local(call: Call)
    | Publish(answer: Answer)

  function Seen(balances: map<Account, int>, writes: map<Account, int>, a: Account): int {
    if a in writes then writes[a] else Available(balances, a)
  }

  function ReplayOrConflict(existing: Trade, quoteId: QuoteId): Answer {
    if existing.quoteId != quoteId then KeyConflict else Replayed(existing)
  }

  /**
   * The catch block after a unique violation on the key: isUniqueViolation reads
   * `code` and `constraint` from the error itself, and rethrows when they are not there.
   */
  function KeyViolation(s: State, c: Call): Call
    requires c.request.TradeRequest?
  {
    if s.errorsWrapped then Ended(c, ServerError) else NewCall(c.request, AtRaceLookup)
  }

  function QuoteViolation(s: State, c: Call): Call {
    Ended(c, if s.errorsWrapped then ServerError else Refused(QuoteTaken))
  }

  /** The next statement of a call: what it waits for, or what it does. */
  ghost function Try(s: State, id: CallId): Attempt
    requires id in s.calls
  {
    var c := s.calls[id];
    match c.phase
    case AtLookup | AtRaceLookup => TryLookup(s, c)
    case AtQuoteLock | AtQuoteCheck => TryQuote(s, id, c)
    case AtRowInsert(_) => TryRowInsert(s, id, c)
    case AtRowLock(_) => TryRowLock(s, id, c)
    case AtDebit | AtDebitEntry => TryDebit(s, id, c)
    case AtCredit | AtCreditEntry => TryCredit(s, id, c)
    case AtTradeInsert | AtKeyIndex | AtQuoteFlip => TryTrade(s, id, c)
    case AtCommit =>
      Publish(if c.trade.Some? then Created(c.trade.value) else Deposited)
    case Answered(_) => Local(c)
  }

  /** findByIdempotencyKey before the transaction, and again after losing a race. */
  function TryLookup(s: State, c: Call): Attempt
    requires c.phase.AtLookup? || c.phase.AtRaceLookup?
  {
    match FindByIdempotencyKey(s.db.trades, c.request.clientId, c.request.key)
    case Some(existing) => Local(c.(phase := Answered(ReplayOrConflict(existing, c.request.quoteId))))
    case None => Local(c.(phase := if c.phase.AtLookup? then AtQuoteLock else Answered(ServerError)))
  }

  ghost function TryQuote(s: State, id: CallId, c: Call): Attempt
    requires c.phase.AtQuoteLock? || c.phase.AtQuoteCheck?
  {
    if c.phase.AtQuoteLock? then
      var lock := QuoteLock(c.request.quoteId);
      if c.request.quoteId !in s.db.quotes then Local(Ended(c, Refused(NotFound)))
      else if HeldByOther(s, id, lock) then Wait(lock)
      else Local(c.(phase := AtQuoteCheck, quote := Some(s.db.quotes[c.request.quoteId]), locks := c.locks + {lock}))
    else
      match CheckQuoteRow(c.quote.value, c.request.clientId, s.clock)
      case Some(why) => Local(Ended(c, Refused(why)))
      case None => Local(c.(phase := AtRowInsert(0), checkedAt := s.clock))
  }

  function AfterRowInsert(c: Call): Phase
    requires c.phase.AtRowInsert?
  {
    if c.phase.next + 1 < |Accounts(c.request, c.quote)| then AtRowInsert(c.phase.next + 1) else AtRowLock(0)
  }

  /** The rows are inserted in the caller's order, debit first. */
  ghost function TryRowInsert(s: State, id: CallId, c: Call): Attempt
    requires c.phase.AtRowInsert?
  {
    var a := Accounts(c.request, c.quote)[c.phase.next];
    if a in s.db.balances then Local(c.(phase := AfterRowInsert(c)))
    else if HeldByOther(s, id, RowLock(a)) then Wait(RowLock(a))
    else Local(c.(phase := AfterRowInsert(c), writes := c.writes[a := 0], locks := c.locks + {RowLock(a)}))
  }

  function AfterRowLock(c: Call): Phase
    requires c.phase.AtRowLock?
  {
    if c.phase.next + 1 < |Accounts(c.request, c.quote)| then AtRowLock(c.phase.next + 1)
    else if c.request.TradeRequest? then AtDebit
    else AtCredit
  }

  /** The rows are locked in the order of their currency. */
  ghost function TryRowLock(s: State, id: CallId, c: Call): Attempt
    requires c.phase.AtRowLock?
  {
    var a := LockOrder(c.request, c.quote)[c.phase.next];
    if RowLock(a) in c.locks then Local(c.(phase := AfterRowLock(c)))
    else if HeldByOther(s, id, RowLock(a)) then Wait(RowLock(a))
    else Local(c.(phase := AfterRowLock(c), locks := c.locks + {RowLock(a)}))
  }

  function TryDebit(s: State, id: CallId, c: Call): Attempt
    requires c.phase.AtDebit? || c.phase.AtDebitEntry?
  {
    var leg := DebitLeg(c.quote.value);
    if c.phase.AtDebit? then
      var available := Seen(s.db.balances, c.writes, leg.account);
      if available < leg.amountMinor then Local(Ended(c, Refused(InsufficientBalance)))
      else Local(c.(phase := AtDebitEntry, writes := c.writes[leg.account := available - leg.amountMinor]))
    else
      Local(c.(phase := AtCredit, entries := c.entries + [Entry(leg.account, -leg.amountMinor, RefOf(c.request, id))]))
  }

  function TryCredit(s: State, id: CallId, c: Call): Attempt
    requires c.phase.AtCredit? || c.phase.AtCreditEntry?
  {
    var leg := Credited(c.request, c.quote);
    if c.phase.AtCredit? then
      var after := Seen(s.db.balances, c.writes, leg.account) + leg.amountMinor;
      if leg.amountMinor > MAX_BIGINT || after > MAX_BIGINT then Local(Ended(c, Refused(OutOfRange)))
      else Local(c.(phase := AtCreditEntry, writes := c.writes[leg.account := after]))
    else
      Local(c.(phase := if c.request.TradeRequest? then AtTradeInsert else AtCommit,
               entries := c.entries + [Entry(leg.account, leg.amountMinor, RefOf(c.request, id))]))
  }

  ghost function TryTrade(s: State, id: CallId, c: Call): Attempt
    requires c.phase.AtTradeInsert? || c.phase.AtKeyIndex? || c.phase.AtQuoteFlip?
  {
    if c.phase.AtTradeInsert? then
      var lock := QuoteIndex(c.request.quoteId);
      if HeldByOther(s, id, lock) then Wait(lock)
      else if QuoteUsed(s.db.trades, c.request.quoteId) then Local(QuoteViolation(s, c))
      else Local(c.(phase := AtKeyIndex, locks := c.locks + {lock}))
    else if c.phase.AtKeyIndex? then
      var lock := KeyIndex(c.request.clientId, c.request.key);
      if HeldByOther(s, id, lock) then Wait(lock)
      else if FindByIdempotencyKey(s.db.trades, c.request.clientId, c.request.key).Some? then
        Local(KeyViolation(s, c))
      else
        Local(c.(phase := AtQuoteFlip, locks := c.locks + {lock},
                 trade := Some(TradeOf(c.quote.value, c.request.quoteId, c.request.key, id))))
    else
      Local(c.(phase := AtCommit, flipped := true))
  }

  /** What a commit makes visible: the transaction's own writes and nothing else. */
  function Published(db: Database, c: Call): Database {
    Database(
      db.balances + c.writes,
      db.ledger + c.entries,
      if c.flipped && c.request.TradeRequest? && c.request.quoteId in db.quotes then
        db.quotes[c.request.quoteId := db.quotes[c.request.quoteId].(status := EXECUTED)]
      else db.quotes,
      if c.trade.Some? then db.trades + [c.trade.value] else db.trades)
  }

  function OperationOf(c: Call, id: CallId): Operation {
    match c.request
    case TradeRequest(clientId, quoteId, key) => TradeOp(clientId, quoteId, key, c.checkedAt, id)
    case DepositRequest(leg) => DepositOp(leg, id)
  }

  function AfterLocal(s: State, id: CallId, call: Call): State {
    s.(calls := s.calls[id := call])
  }

  function AfterCommit(s: State, id: CallId, answer: Answer): State
    requires id in s.calls
  {
    s.(calls := s.calls[id := Ended(s.calls[id], answer)],
       db := Published(s.db, s.calls[id]),
       history := s.history + [OperationOf(s.calls[id], id)])
  }

  // ---- Steps and runs ----

  datatype Action =
    | BeginTrade(id: CallId, clientId: ClientId, quoteId: QuoteId, rawKey: string)
    | BeginDeposit(id: CallId, leg: Leg)
    | AddQuote(quoteId: QuoteId, quote: Quote)   // createQuote's INSERT
    | Advance(id: CallId)
    | CommitUnheard(id: CallId)                  // the commit reaches the database, its reply is lost
    | Drop(id: CallId)                           // deadlock victim, lost connection, crash: rolled back
    | Tick(now: int)

  predicate Finished(c: Call) {
    c.phase.Answered?
  }

  /** The state after an action, or None when the action is not possible there. */
  ghost function Apply(s: State, action: Action): Option<State> {
    match action
    case BeginTrade(id, clientId, quoteId, rawKey) =>
      if id in s.calls || IdUsed(s.db, id) then None
      else Some(s.(calls := s.calls[id := NewCall(TradeRequest(clientId, quoteId, Trim(rawKey)), AtLookup)]))
    case BeginDeposit(id, leg) =>
      if id in s.calls || IdUsed(s.db, id) || leg.amountMinor <= 0 then None
      else Some(s.(calls := s.calls[id := NewCall(DepositRequest(leg), AtRowInsert(0))]))
    case AddQuote(quoteId, quote) =>
      if quoteId in s.db.quotes || !StorableQuote(quote) then None
      else Some(s.(db := s.db.(quotes := s.db.quotes[quoteId := quote]),
                   history := s.history + [QuoteOp(quoteId, quote)]))
    case Advance(id) =>
      if id !in s.calls || Finished(s.calls[id]) then None
      else
        (match Try(s, id)
         case Wait(_) => None
         case Local(call) => Some(AfterLocal(s, id, call))
         case Publish(answer) => Some(AfterCommit(s, id, answer)))
    case CommitUnheard(id) =>
      if id !in s.calls || !s.calls[id].phase.AtCommit? then None
      else Some(AfterCommit(s, id, ServerError))
    case Drop(id) =>
      if id !in s.calls || Finished(s.calls[id]) then None
      else Some(s.(calls := s.calls[id := Ended(s.calls[id], ServerError)]))
    case Tick(now) =>
      if now < s.clock then None else Some(s.(clock := now))
  }

  /** The call an action publishes the writes of, if it is a commit. */
  ghost predicate Commits(s: State, action: Action) {
    && (action.Advance? || action.CommitUnheard?)
    && action.id in s.calls && s.calls[action.id].phase.AtCommit?
  }

  /** The committed rows change by a commit or a new quote, and by nothing else. */
  lemma DatabaseAfter(s: State, action: Action)
    requires Apply(s, action).Some?
    ensures Apply(s, action).value.db ==
      if Commits(s, action) then Published(s.db, s.calls[action.id])
      else if action.AddQuote? then s.db.(quotes := s.db.quotes[action.quoteId := action.quote])
      else s.db
  {
  }

  /** A call moves only by its own statements, or by being cut off. */
  lemma CallAfter(s: State, action: Action, id: CallId)
    requires Apply(s, action).Some? && id in s.calls && action != Advance(id)
    ensures id in Apply(s, action).value.calls
    ensures Apply(s, action).value.calls[id] ==
      if action == Drop(id) || action == CommitUnheard(id) then Ended(s.calls[id], ServerError) else s.calls[id]
  {
  }

  function Start(db: Database, now: int, errorsWrapped: bool): State {
    State(db, map[], now, errorsWrapped, [])
  }

  /** The state a sequence of actions leads to, or None when one of them was not possible. */
  ghost function Run(start: State, actions: seq<Action>): Option<State> {
    if actions == [] then Some(start)
    else
      var before := Run(start, actions[..|actions| - 1]);
      if before.None? then None else Apply(before.value, actions[|actions| - 1])
  }
}
