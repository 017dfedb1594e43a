# MiniOpenFX: a verified model of quoting, settlement and history

MiniOpenFX quotes a price to a client, locks it for fifteen seconds, and settles a
trade against that quote: one balance is debited, another credited, two ledger
entries and one trade row are written, and the quote is marked executed. This
project models that path of the API service, from the text of an amount to the page
of trade history, and proves what it keeps over all inputs and all runs.

`dafny verify dfyconfig.toml` checks everything.

## How it is put together

| files | what they hold |
|---|---|
| Schema, Settlement, LedgerInvariant | the tables; one trade, deposit or quote run alone; balances = ledger sums and exactly-once settlement over all histories |
| Protocol, ProtocolInvariant, ProtocolRuns | any number of calls interleaved one SQL statement at a time, with locks, private writes, unique indexes, aborts and lost replies; serializability |
| Deadlock, DeadlockWitness, Graphs | who can wait for whom, and exactly which trades can deadlock |
| Effects, Told | what a trade and a deposit do, and what calls are told, said on the rows and the clock alone |
| LockDiscipline | one owner per uncommitted row; locked rows stand still |
| Runs, Completion, Expiry | building runs; how far calls can still get; exactly when an expired quote is still executed |
| Retries, Strings | idempotency keys |
| Lifecycle | what every run keeps, stated for balances, quotes and answers |
| Decimals, Money, QuotePricing, Format | decimals of 20 significant digits, minor units, directed rounding, printing and parsing |
| NoFreeMoney | pricing and ledger together: trading at fixed prices does not enrich a client while every product has at most 20 significant digits, and beyond that by at most one minor unit a trade |
| QuoteMapper, QuoteCache, CacheTasks, CacheCoherence, CacheStaleness | the read-through quote cache interleaved with the trades of Protocol |
| TradeHistory, PageWalk | keyset pages and the walk along them |
| Tables, LedgerService, TradingService, BalancesService, RedisService, QuotingService, Seed | the services as classes that change the tables in place, each method proved against the functions above |

Settlement is the hub: the service methods are proved to compute it on the tables they
change, and every interleaving of Protocol is proved to amount to it. What Settlement's
operations do is said on the rows alone in Effects.

## Assumptions

- The database runs at READ COMMITTED. Row locks are held to commit or rollback.
  `FOR UPDATE` reads the row again after waiting and takes the locks in the order of
  its `ORDER BY`. `ON CONFLICT DO NOTHING` takes no lock on a committed row and waits
  for an insert of the same key in flight. An insert under a unique index waits for a
  duplicate in flight and fails if that duplicate commits. A deadlock victim or a lost
  connection is rolled back as a whole (`Drop`).
- There is one clock and it does not go back; the cache uses the same one.
- Generated ids are distinct. A trade carries the id of the call that made it.
- Whether `isUniqueViolation` can read `code` and `constraint` from the error it is
  given depends on the driver and the query builder, which may wrap it. The flag
  `errorsWrapped` stands for either case and nothing is assumed about it; when it is
  set, a lost race on the key is reported as a server error instead of a conflict, both in
  Protocol and by TradingService.
- decimal.js runs on its defaults: products and quotients are rounded half up to 20
  significant digits, the constructor and `toDecimalPlaces` are not.
- A stored timestamp has microseconds; read into a `Date` it is cut down to the
  millisecond. `decodeCursor` undoes `encodeCursor` on such pairs of time and id.

## What the proofs found

- Sorted locking does not rule out deadlock. The missing rows are inserted in the
  caller's order before they are locked, and a client's first BUY and first SELL of a
  pair can wait for each other. It can happen to a trade exactly when both of its rows
  are missing as it begins (DeadlockWitness.DeadlockExactlyWhen), and it is harmless:
  every trade on such a cycle had nothing to pay with (Deadlock.CycleMember).
- The catch block after a lost race never replays (Retries.RaceEndsInConflict). Two
  simultaneous calls with one key and one quote are separated by the quote lock, and
  the later one is told "already executed" (Retries.LateDuplicateIsRefused); only a
  call that starts after the commit gets the replay.
- The handler for a violation of the quote index cannot be reached
  (Retries.QuoteIndexNeverFires).
- "House-favoured" rounding has a digit bound: a product of more than 20 significant digits can make
  a BUY one minor unit too cheap and a SELL bring one too much, inside the column's range
  (QuotePricing.BuyCanBeOneShort, QuotePricing.SellCanBeOneMore); DirectedRounding says exactly when.
- The precision check lets through an amount that is no whole number of minor units exactly
  when the amount becomes one at 20 significant digits (Money.LetThroughExactlyWhen), and
  then credits or quotes the cut amount: 0.00000001000000000000000000001 is one minor unit
  (Format.TooPreciseTextPasses). It never refuses a whole number of minor units.
- Amounts from 1 to 99 minor units are printed in exponent notation, which the
  service's own request pattern rejects (Format.PrintedFormMatchesPattern).
- A reader between its table read and its cache write undoes an invalidation
  (CacheStaleness.ReaderUndoesInvalidation); the stale entry dies by itself.
- The cursor keeps milliseconds while the table keeps microseconds, so a page boundary
  inside a millisecond skips rows (PageWalk.SameMillisecondIsMissed), against the comment
  in cursor-pagination.ts; PageWalk.AlwaysShownExactlyWhen says which rows are at risk.
- A quote shown as EXPIRED can still become EXECUTED (Expiry.ShownExpiredThenExecuted), by a
  call that had passed its check and by no other (Expiry.LapsedForGood); with nothing else
  committed in between, exactly when such a call would commit alone (Expiry.OverdueExecutesExactlyWhen).

## Model

| member | source | states |
|---|---|---|
| ProtocolRuns.Serializable | apps/api/src/trading/trading.service.ts:102-191 | For every interleaving, statement by statement, of any number of trades, deposits, new quotes, crashes and lost replies: replaying the committed operations one at a time in commit order gives exactly the committed balances, ledger, quotes and trades. |
| ProtocolRuns.ApplyKeepsInv | apps/api/src/trading/trading.service.ts:102-191 | Every single step of every call keeps the invariant: ledger, settlement, what each call has written privately, which locks it holds, and that no lock has two holders. |
| ProtocolRuns.RunKeepsInv | apps/api/src/trading/trading.service.ts:102-191 | The same over runs of any length. |
| ProtocolRuns.CommitIsAtomic | apps/api/src/trading/trading.service.ts:148-190 | The private writes a call publishes at commit are what the whole call would have written had it run alone at that instant. |
| ProtocolRuns.CommitDisturbsNobody | apps/api/src/ledger/ledger.service.ts:45-76 | A commit changes nothing any other live call has locked or relied on. |
| ProtocolRuns.ApplyIsAtomic | apps/api/src/trading/trading.service.ts:60-67 | A step either commits nothing and leaves the committed rows alone, or commits exactly one operation. |
| ProtocolRuns.RefusalIsAtomic | apps/api/src/trading/trading.service.ts:113-126 | A trade refused at any statement (not found, executed, expired, insufficient, overflow, key taken) gets the refusal it would get running alone on the rows committed at that moment. |
| ProtocolRuns.DepositRefusalIsAtomic | apps/api/src/balances/balances.service.ts:58-70 | The same for a deposit. |
| ProtocolInvariant.OwnStep | apps/api/src/trading/trading.service.ts:102-191 | One statement of a call keeps locks, private writes, private ledger entries and known facts as the text of the transaction says they must be at that point. |
| Protocol.LockOrder | apps/api/src/ledger/ledger.service.ts:63-73 | The rows a transaction locks are the rows it touches, in ascending currency order. |
| Protocol.Accounts | apps/api/src/ledger/ledger.service.ts:50-61 | The rows are inserted in the order the caller names them, a trade's debit row first and its credit row last, without duplicates. |
| Deadlock.WaitGoesUp | apps/api/src/ledger/ledger.service.ts:50-73 | Whoever a call waits for has come at least as far as it has, and strictly further (later statement, or higher currency among sorted locks) unless both are still inserting missing rows. |
| Deadlock.CycleMember | apps/api/src/ledger/ledger.service.ts:50-61 | Every call on a wait cycle is a trade between its two row inserts, holding nothing but its quote and its own debit row just inserted at zero; run alone it would be refused for insufficient balance. |
| Deadlock.CycleMemberNeverFills | apps/api/src/ledger/ledger.service.ts:50-75 | Whatever happens afterwards, a call that was on a wait cycle never becomes a trade: deadlock never costs a trade that could have filled. |
| Deadlock.StuckMeansCycle | apps/api/src/ledger/ledger.service.ts:50-75 | If no live call can run its next statement, the waits form a cycle. |
| Deadlock.ExistingRowsNeverDeadlock | apps/api/src/ledger/ledger.service.ts:63-73 | As long as no call holds a row it has just inserted, some live call can always run its next statement. |
| DeadlockWitness.DeadlockExactlyWhen | apps/api/src/ledger/ledger.service.ts:36-61 | When a trade on a stored quote begins, in any reachable state, some run puts it on a wait cycle if and only if nothing refuses it yet (key unused, quote its own, ACTIVE and not expired) and both of its balance rows are missing. The comment that sorted locking excludes AB-BA deadlock holds exactly outside that case. |
| DeadlockWitness.OppositeTradesDeadlock | apps/api/src/ledger/ledger.service.ts:50-61 | Any two just-begun trades of one client with opposite legs and both rows missing can be run into waiting for each other, whatever the database, quotes, keys and ids. |
| DeadlockWitness.CycleMeansMissingRows | apps/api/src/ledger/ledger.service.ts:63-73 | A trade whose debit or credit row is committed when it begins is on no wait cycle in any later run. |
| Retries.QuoteIndexNeverFires | apps/api/src/trading/trading.service.ts:76-80 | The branch for a violation of the quote index is unreachable: in every reachable state a call at its trade insert passes that index. |
| Retries.KeyViolationIsAnotherQuote | apps/api/src/trading/trading.service.ts:69-71 | A violation of the key index means a committed trade holds the key for a different quote; the catch block is entered exactly when the driver error is readable. |
| Retries.RaceEndsInConflict | apps/api/src/trading/trading.service.ts:69-75 | The lookup in the catch block always finds the winner and always answers with a conflict. |
| Retries.OnlyTheFirstLookupReplays | apps/api/src/trading/trading.service.ts:53-56 | Once past the first lookup no call is ever answered with a replay, in any run. |
| Retries.LateDuplicateIsRefused | apps/api/src/trading/trading.service.ts:108-123 | A call that overlaps the commit of its own key and quote is stopped at the quote row with "already executed", not replayed. |
| Retries.RetryReplays | apps/api/src/trading/trading.service.ts:51-56 | A call that looks its key up after a trade with that key is committed gets that same trade for the same quote, a conflict for another, and nothing moves. |
| Retries.RetryOverRuns | apps/api/src/trading/trading.service.ts:51-56 | A call begun after a trade with its key is committed is, in every later run, still at its lookup, answered with that trade for the same quote and a conflict for another, or cut off; it never commits anything. |
| Retries.SuccessesAgree | apps/api/src/trading/trading.service.ts:90-100 | All successful calls of a client with one key report one and the same trade, and at most one of them created it. |
| Retries.KeyMovesMoneyOnce | apps/api/src/db/schema.ts:154-160 | In no run do two committed trades share a client and key, nor a quote: one key moves money at most once, whatever its callers were told. |
| Retries.OperationsLeaveTrades | apps/api/src/trading/trading.service.ts:167-183 | Every committed trade operation has left its trade row, with its key, quote and client, and rows are never removed. |
| Strings.TrimIgnoresPadding | apps/api/src/trading/trading.service.ts:48-51 | White space around a key never makes it a different key. |
| Strings.TrimIsCore | apps/api/src/trading/trading.service.ts:48-51 | Trimming removes white space from both ends and nothing else. |
| Strings.SpacesAre | apps/api/src/trading/trading.service.ts:48-51 | The 25 characters trimming takes off, one by one. |
| Lifecycle.BalancesAreLedgerSums | apps/api/src/db/schema.ts:37-81 | In every reachable state, for every client and currency: balance = sum of ledger deltas, not negative, inside a signed 64-bit column. |
| Lifecycle.QuotesSettleExactlyOnce | apps/api/src/trading/trading.service.ts:148-190 | In every reachable state an EXECUTED quote has exactly one trade, a copy of the quote, with exactly two ledger entries: minus the debit leg, plus the credit leg, for the quote's own client. An ACTIVE quote has none. |
| Lifecycle.AnswersAreTrue | apps/api/src/trading/trading.service.ts:84-87 | In every reachable state what a caller was told is borne out by the committed rows: a reported trade is there under the caller's key and quote, fully settled; "already executed" and conflicts are real. |
| Lifecycle.AbortLeavesNoTrace | apps/api/src/trading/trading.service.ts:60-67 | In every reachable state a call still running, refused, told of a conflict or given a replay has left no ledger entry and no trade behind. |
| LockDiscipline.UncommittedRowsHaveOneOwner | apps/api/src/ledger/ledger.service.ts:63-75 | In every reachable state a balance row with uncommitted changes, and a quote about to flip, belongs to exactly one live call, which holds its lock; no other call holds that lock or has changed that row. |
| LockDiscipline.LockedRowsDoNotMove | apps/api/src/ledger/ledger.service.ts:63-75 | Over every run from the state where a call holds a balance or quote row to any later one where it still does, the committed row is the same. |
| LockDiscipline.GuardsTestTheLockedBalance | apps/api/src/ledger/ledger.service.ts:89-102 | The balance the debit guard and the credit read is the one committed when the row was locked plus the transaction's own ledger entries, over every run in between. |
| Lifecycle.QuotesOnlyMoveForward | apps/api/src/db/schema.ts:93-101 | Over every run a quote keeps every field but its status, and the status goes only from ACTIVE to EXECUTED. |
| Lifecycle.CommittedInTime | apps/api/src/trading/trading.service.ts:124-126 | Every committed trade passed its expiry check strictly before expiresAt, by the quote's own client. |
| Expiry.LapsedForGood | apps/api/src/quoting/quote.mapper.ts:84-86 | Once the clock has reached expiresAt with the quote ACTIVE and no call past its check, no later run executes it. |
| Expiry.OverdueExecutesExactlyWhen | apps/api/src/trading/trading.service.ts:119-126 | In any reachable state with the quote ACTIVE and expiresAt reached, some run in which nothing else is committed executes it if and only if some call on it is past its check and would commit if all of it ran alone on the committed rows. |
| Expiry.ShownExpiredThenExecuted | apps/api/src/quoting/quote.mapper.ts:84-97 | From any reachable state with such a call: the clock reaches expiresAt, a response says EXPIRED, a later run executes the quote, and then a response says EXECUTED. |
| Expiry.EveryTradeCanOutliveItsQuote | apps/api/src/trading/trading.service.ts:119-126 | Every trade that would be executed at once can also be executed after its quote has been shown EXPIRED. |
| Expiry.CommitIgnoresTheClock | apps/api/src/trading/trading.service.ts:167-190 | A call at its commit executes its ACTIVE quote whatever the clock has come to. |
| Completion.BoundCallsCanCommit | apps/api/src/trading/trading.service.ts:102-191 | A call past its check that would commit if it ran alone can be run to its commit, with nothing else committed, whoever is in its way. |
| Completion.OwnStatementsAreBounded | apps/api/src/trading/trading.service.ts:43-191 | In any run a call takes at most the statements it has left, never more than 15 from its beginning. |
| Completion.EverybodyIsAnswered | apps/api/src/ledger/ledger.service.ts:63-75 | When the balance rows the calls touch are all committed, letting the calls run, without cutting any off, answers every one of them. |
| LedgerInvariant.HistoryIsConsistent | apps/api/src/ledger/ledger.service.ts:78-147 | Every history of trades, deposits and quotes keeps the ledger invariant and exactly-once settlement. |
| LedgerInvariant.TradeStep | apps/api/src/trading/trading.service.ts:102-191 | One trade keeps all of it, given a fresh id. |
| LedgerInvariant.DepositStep | apps/api/src/balances/balances.service.ts:58-70 | One deposit keeps all of it. |
| LedgerInvariant.QuoteStep | apps/api/src/quoting/quoting.service.ts:73-87 | Storing a new quote keeps all of it. |
| LedgerInvariant.DebitKeepsLedger | apps/api/src/ledger/ledger.service.ts:78-118 | The guarded debit keeps balances equal to ledger sums and not negative. |
| LedgerInvariant.CreditKeepsLedger | apps/api/src/ledger/ledger.service.ts:120-147 | The credit keeps balances equal to ledger sums and inside bigint. |
| Settlement.FindByIdempotencyKey | apps/api/src/trading/trading.service.ts:193-209 | A found trade has the client and key; none found means no trade has them. |
| Effects.RefusedExactlyWhen | apps/api/src/trading/trading.service.ts:108-165 | One iff for each refusal of a trade, on the rows and the clock alone: not found (absent or another client's), already executed, expired, insufficient (the paying side's balance below what it owes), out of range, quote taken, key taken; each on its own grounds exactly. |
| Effects.CommittedExactlyWhen | apps/api/src/trading/trading.service.ts:108-183 | A trade is committed exactly when the quote is the client's own, ACTIVE and before its expiry, payable, inside the column, and neither quote nor key has a trade. |
| Effects.TradeMovesBalances | apps/api/src/trading/trading.service.ts:128-165 | A committed trade changes every balance of every client by exactly what its side moves: base in and quote out on a BUY, the other way on a SELL, nothing elsewhere. |
| Effects.TradeLeavesRows | apps/api/src/trading/trading.service.ts:148-190 | It adds the two ledger entries of its side, payment first, one trade row equal to the quote field by field, flips that quote, and changes no other quote. |
| Effects.DepositExactly | apps/api/src/balances/balances.service.ts:58-70 | A deposit is committed exactly when its amount and the sum fit the column, and adds just that amount, to that one balance, with that one entry. |
| Told.LookupTellsExactly | apps/api/src/trading/trading.service.ts:51-56 | In every reachable state the first lookup goes on exactly when no trade of the client has the key, and otherwise answers with that trade for the same quote and a conflict for another. |
| Told.RefusalHasGrounds | apps/api/src/trading/trading.service.ts:113-126 | In every reachable state a trade told of a refusal, at any statement, is told of one whose grounds hold at that moment. |
| Told.MissingQuoteIsNotFound | apps/api/src/trading/trading.service.ts:108-117 | Where the quote row is to be locked, not found is answered exactly when there is none. |
| Told.CheckTellsExactly | apps/api/src/trading/trading.service.ts:113-126 | The check of the quote row answers not found, already executed, expired, or goes on, each exactly when owner, status and clock say so. |
| Told.DebitTellsExactly | apps/api/src/ledger/ledger.service.ts:89-108 | The guarded debit refuses exactly when the committed balance of the paying side is below what it owes. |
| Told.CreditTellsExactly | apps/api/src/ledger/ledger.service.ts:128-137 | The credit, of a trade or a deposit, refuses exactly when the result does not fit the column. |
| Told.KeyIndexTellsExactly | apps/api/src/db/schema.ts:154-160 | The key index lets a trade on exactly when no committed trade of the client has the key. |
| Told.DepositsPayInTheirAmount | apps/api/src/balances/balances.service.ts:58-70 | Every deposit of a history has left exactly one ledger entry: its amount, on its account. |
| Told.DepositedMeansPaidIn | apps/api/src/balances/balances.service.ts:58-72 | In every reachable state a deposit that was told it went through has exactly one ledger entry: the requested amount on the requested account. |
| Told.TradesCopyTheirQuotes | apps/api/src/trading/trading.service.ts:167-183 | In every reachable state every trade row equals its EXECUTED quote field by field, and its ledger entries are the two of its side. |
| TradingService.Service.ExecuteTrade | apps/api/src/trading/trading.service.ts:43-88 | The whole call, in place. A trade the first lookup sees under the trimmed key is replayed exactly when it is for the same quote, and a conflict otherwise. When none is seen, every answer is given on its own grounds exactly, read from the rows; success leaves the rows of Effects.TradeLeavesRows and removes the cached quote; anything else leaves everything as it was. The ledger invariant is kept. |
| TradingService.Service.Transact | apps/api/src/trading/trading.service.ts:58-87 | Transaction, catch block and invalidation: the answers exactly on their grounds, everything rolled back unless executed. |
| TradingService.Service.ExecuteWithinTransaction | apps/api/src/trading/trading.service.ts:102-191 | The statements of the transaction give the atomic trade, error for error; which error is Effects.RefusedExactlyWhen. |
| TradingService.Service.MoveMoney | apps/api/src/trading/trading.service.ts:128-165 | Locking, debit and credit in place are the two ledger movements of the quote, and fail exactly when one of them does. |
| TradingService.Service.FindByKey | apps/api/src/trading/trading.service.ts:193-209 | The lookup loop finds the first trade with the client and key, or none exists. |
| TradingService.KeyTakenElsewhere | apps/api/src/trading/trading.service.ts:69-75 | Whenever the key is taken at the insert, the trade that took it is for another quote. |
| LedgerService.Distinct | apps/api/src/ledger/ledger.service.ts:50 | Every currency once, in the order of first occurrence. |
| LedgerService.Service.LockBalanceRows | apps/api/src/ledger/ledger.service.ts:45-76 | Afterwards exactly the old rows and the named ones exist, old ones as they were, new ones at zero, nothing else is changed, and the lock covers exactly the named currencies. |
| LedgerService.Service.Debit | apps/api/src/ledger/ledger.service.ts:78-118 | Fails exactly when not covered by the lock, or the row is missing or below the amount, changing nothing; otherwise that one balance falls by the amount with one entry of minus the amount. |
| LedgerService.Service.Credit | apps/api/src/ledger/ledger.service.ts:120-147 | Fails exactly when not covered by the lock or past bigint, changing nothing; otherwise that one balance rises by the amount with one entry of it. |
| BalancesService.Service.CreateDeposit | apps/api/src/balances/balances.service.ts:40-73 | Takes the request text. Refused exactly when the amount cut to 20 significant digits is no whole number of minor units, or is not positive, or it or the new balance passes bigint, and then nothing changes; otherwise the balance of that client and currency rises by exactly what the cut amount is worth, the ledger gains exactly that entry, and no other balance, quote or trade changes. The ledger invariant is kept. |
| Seed.Seed | apps/api/src/db/seed.ts:26-57 | Nothing when the client is already there. Otherwise every funded balance is its amount, the ledger gains one entry of that amount for each item in order, and nothing else changes; the ledger invariant is kept. |
| Seed.SeedingIsConsistent | apps/api/src/db/seed.ts:37-54 | Seeding a new client with distinct currencies establishes the ledger invariant. |
| Seed.FundedPaysIn | apps/api/src/db/seed.ts:37-54 | For any distinct funding: each funded balance is its amount, one ledger entry an item in order, every other account, the quotes and the trades as before. |
| Seed.SeededDatabaseIsConsistent | apps/api/src/db/seed.ts:19-57 | Seeding an empty database gives a state that satisfies everything the runs start from, with no trades yet. |
| Seed.DemoFunding | apps/api/src/db/seed.ts:19-22 | The two funding texts are 1000000000000 and 100000000 minor units. |
| Seed.DemoBalances | apps/api/src/db/seed.ts:19-54 | The seeded database has exactly the two balances 1000000000000 and 100000000, and exactly their two entries. |
| QuotingService.Service.CreateQuote | apps/api/src/quoting/quoting.service.ts:30-96 | Takes the request text. Each rejection, and success, is given exactly when: amount not acceptable, not positive, quote amount not positive, either amount past bigint, none of these; no price makes it throw. Success stores exactly one row for the request, strictly positive and inside bigint, priced from its own side, expiring in 15 s and cached for as long; a rejection changes nothing. |
| QuotingService.Service.Price | apps/api/src/quoting/quoting.service.ts:34-87 | The guards in their order let through exactly the amounts that are acceptable, positive and inside the column once priced, and make the row of the request from them. |
| QuotingService.Service.LoadQuote | apps/api/src/quoting/quoting.service.ts:110-136 | The entry's row while the cache can be read and the entry has not reached its deadline; in every other case the stored row, whatever the entry held, cached again for exactly the time it has left, if any. |
| QuotingService.Service.GetQuoteById | apps/api/src/quoting/quoting.service.ts:98-103 | Only the owner of the row read is answered. Without a live, readable entry the answer is the stored quote's, whatever the entry held; with one it is the entry's; from a faithful cache it is the stored quote's in every case, and the cache stays faithful. |
| RedisService.KeysAreDistinct | apps/api/src/quoting/quote.mapper.ts:7-9 | Different quotes never share a cache key. |
| Money.PrecisionCheck | apps/api/src/domain/money.ts:15-23 | With at most 20 significant digits, toMinorUnits succeeds exactly for whole multiples of 10^-8 and then returns the amount exactly scaled. |
| Money.ConvertsExactlyWhen | apps/api/src/domain/money.ts:15-23 | For any decimal at all: the conversion succeeds if and only if the decimal cut to 20 significant digits is a whole number of minor units, and gives exactly what the cut decimal is worth. |
| Money.LetThroughExactlyWhen | apps/api/src/domain/money.ts:16-21 | When the precision check errs: it never refuses a whole number of minor units, and lets an amount that is none through if and only if it becomes one at 20 digits. |
| Money.ExactOnlyWithinDigits | apps/api/src/domain/money.ts:15-23 | A conversion that succeeds is exact if and only if the amount had at most 20 significant digits. |
| Money.ExactExactlyWhen | apps/api/src/domain/money.ts:15-23 | The conversion both succeeds and is exact if and only if the amount is a whole number of minor units of at most 20 significant digits; which other amounts are refused or let through is LetThroughExactlyWhen. |
| Money.TooPreciseAmountPasses | apps/api/src/domain/money.ts:16-21 | A decimal with 29 decimal places that passes as one minor unit. |
| Money.MinorUnitsFit | apps/api/src/domain/money.ts:15-23 | Whatever toMinorUnits returns has at most 20 significant digits. |
| Money.MinorUnitsRoundTrip | apps/api/src/domain/money.ts:25-27 | Minor units of at most 20 digits survive the way to a decimal and back. |
| Format.FormatParseRoundTrip | apps/api/src/domain/money.ts:15-32 | For every amount of at most 20 significant digits, of either sign and in plain or exponent notation, parsing the printed amount gives it back. |
| Format.PrintedFormMatchesPattern | apps/api/src/domain/money.ts:13-32 | For non-negative amounts below 10^20 the printed form matches the request pattern if and only if the amount is 0 or at least 100 minor units. |
| Format.DigitsAre | apps/api/src/domain/money.ts:15-32 | The ten digit characters print and read as 0 to 9. |
| Format.AcceptedTextParses | apps/api/src/domain/money.ts:13 | Text matching the request pattern parses to the decimal of its digits. |
| Format.AmountTextConverts | apps/api/src/domain/money.ts:13-23 | Request text of at most 20 significant digits is accepted if and only if nothing but zeros follows the eighth decimal place, and is then converted to exactly what it says. |
| Format.TextConvertsExactlyWhen | apps/api/src/domain/money.ts:15-23 | The same for the text the service receives, whatever it is: exactly the acceptable texts convert, to what their cut form is worth. |
| Format.TooPreciseTextPasses | apps/api/src/domain/money.ts:16-21 | The request text 0.00000001000000000000000000001, with 29 decimal places, matches the pattern and passes as one minor unit. |
| Decimals.RoundNear | apps/api/src/domain/money.ts:16 | Rounding to 20 digits moves a number by at most half a unit of the last digit kept and leaves a fitting number alone. |
| Decimals.RoundedFits | apps/api/src/domain/money.ts:16 | A rounded number has at most 20 significant digits. |
| Decimals.RoundBetweenMultiples | apps/api/src/quoting/quote-pricing.ts:24 | Rounding never steps over a multiple of the last digit kept. |
| Decimals.RoundShift | apps/api/src/domain/money.ts:15-27 | Rounding depends on the number, not on the trailing zeros it is written with. |
| QuotePricing.DirectedRounding | apps/api/src/quoting/quote-pricing.ts:23-29 | For every result below 10^20 minor units: BUY at the ask is the exact ceiling and SELL at the bid the exact floor of the product, except one unit less or more exactly when ExactFor fails. |
| QuotePricing.ExactWithinTwentyDigits | apps/api/src/quoting/quote-pricing.ts:24 | A product of at most 20 significant digits, however many zeros end it, always meets ExactFor. |
| QuotePricing.OneCoinIsExact | apps/api/src/quoting/quote-pricing.ts:24 | One coin at 65432.10000000: a product of 21 digits that is rounded exactly. |
| QuotePricing.BuyCanBeOneShort | apps/api/src/quoting/quote-pricing.ts:10-16 | A BUY inside the column that costs one minor unit less than the product rounded up. |
| QuotePricing.SellCanBeOneMore | apps/api/src/quoting/quote-pricing.ts:10-16 | A SELL inside the column that brings one minor unit more than the product rounded down. |
| QuotePricing.RelativeError | apps/api/src/quoting/quote-pricing.ts:23-29 | Above 10^20 minor units the result is still within half a unit of its twentieth digit. |
| QuotePricing.QuoteAmountIs | apps/api/src/domain/money.ts:40-47 | With a positive price roundToMinorUnits never throws: the result is the 20-digit product divided out in the direction of the side. |
| QuotePricing.AlwaysPriced | apps/api/src/domain/money.ts:40-47 | Whatever price arrives, of either sign, pricing an amount of at most 20 digits never throws and reports the side's own price. |
| NoFreeMoney.HoldingsBound | apps/api/src/quoting/quote-pricing.ts:10-30 | Over every run on one pair at fixed prices and any mark between bid and ask, a client's holdings are worth at most what was paid in plus one quote unit per trade rounded the client's way. |
| NoFreeMoney.HoldingsNeverExceedDeposits | apps/api/src/quoting/quote-pricing.ts:10-30 | When every product of the client's trades has at most 20 significant digits they are worth at most what was paid in. |
| NoFreeMoney.TradeGain | apps/api/src/trading/trading.service.ts:128-136 | One trade gains its client at most the one unit its rounding gave away. |
| NoFreeMoney.PricedAs | apps/api/src/quoting/quote-pricing.ts:23-29 | A stored quote amount is the ceiling or floor of its product up to that unit: bigint keeps every stored quote in range. |
| CacheCoherence.NextKeepsCoherent | apps/api/src/quoting/quoting.service.ts:110-136 | Every step of reads, writes, deletes, evictions, late cache commands and trades keeps entries, held rows and responses in agreement with the table. |
| CacheCoherence.CacheAgreesWithTable | apps/api/src/quoting/quoting.service.ts:110-136 | In every reachable state a cached quote agrees with its row on all but the status, cached EXECUTED implies stored EXECUTED, and the entry is gone at expiresAt plus the delay between computing its TTL and writing it. |
| CacheCoherence.ResponsesAreBounded | apps/api/src/quoting/quote.mapper.ts:84-100 | Whatever the cache held, a response says ACTIVE only when evaluated before expiresAt, EXPIRED only after, EXECUTED only if the row is; it goes to the owner and its texts are exactly the stored amounts. |
| CacheTasks.UndisturbedRead | apps/api/src/quoting/quoting.service.ts:110-136 | A read that misses the cache before the expiry shows the owner the stored row and leaves it cached until exactly the expiry. |
| CacheTasks.UndisturbedLateRead | apps/api/src/quoting/quoting.service.ts:124-135 | From the expiry on such a read shows the stored row and leaves the cache alone. |
| CacheTasks.UndisturbedCreation | apps/api/src/quoting/quoting.service.ts:69-96 | A creation stores the row, caches it for 15 s from its cache write, and shows it to its client. |
| CacheStaleness.FreshExactlyWhenUnexposed | apps/api/src/quoting/quoting.service.ts:105-136 | Once the row is EXECUTED, every later read in every run says so if and only if no live entry is ACTIVE and no reader is between its table read and its cache write with an ACTIVE copy. |
| CacheStaleness.HeardCommitInvalidates | apps/api/src/trading/trading.service.ts:84-85 | A commit its caller hears of is followed by an invalidation of that very quote. |
| CacheStaleness.InvalidationDeletes | apps/api/src/redis/redis.service.ts:47-56 | The invalidation takes that entry and no other out of the cache, or fails softly, or is still on its way. |
| CacheStaleness.InvalidationIsFinal | apps/api/src/trading/trading.service.ts:84-85 | A delete that reaches the cache with no such reader ends all staleness. |
| CacheStaleness.ReaderUndoesInvalidation | apps/api/src/trading/trading.service.ts:84-85 | With such a reader the delete does not: some later read still does not say EXECUTED. |
| QuoteMapper.CachedRowRoundTrip | apps/api/src/quoting/quote.mapper.ts:58-76 | deserializeQuote undoes serializeQuote for every row. |
| QuoteMapper.ResponseIsFaithful | apps/api/src/quoting/quote.mapper.ts:84-100 | The texts shown parse back to the stored amounts; ACTIVE is shown exactly for an ACTIVE row before expiresAt, EXECUTED exactly for an EXECUTED row. |
| TradeHistory.GetTradeHistory | apps/api/src/trades/trades.service.ts:22-57 | The page is the newest wanted rows, newest first, at most the limit; there is a next cursor exactly when a wanted row is left, and it is the truncated key of the last row; a malformed cursor is a bad request. |
| TradeHistory.PageIsUnique | apps/api/src/trades/trades.service.ts:39-56 | The description of a page leaves exactly one page for a request. |
| TradeHistory.OrderSorts | apps/api/src/trades/trades.service.ts:43 | Ordering loses and adds no row and is strict when ids are distinct. |
| PageWalk.WalkDescends | apps/api/src/trades/trades.service.ts:26-56 | Following nextCursor while trades are being added gives strictly descending (createdAt, id): nothing is shown twice. |
| PageWalk.AlwaysShownExactlyWhen | apps/api/src/trades/trades.service.ts:28-35 | On a table that stays as it is, a row is shown by every finished walk, whatever the page limits, if and only if no row of its client in the table would step over it as the last row of a page. |
| PageWalk.SafeRowsAreShown | apps/api/src/trades/trades.service.ts:28-35 | On a growing table too: a row present at the start that no row of the client steps over is shown by every finished walk. |
| PageWalk.WalkMissing | apps/api/src/trades/trades.service.ts:46-55 | A row some row steps over is missed by a walk of two pages, neither limit larger than the table. |
| PageWalk.ShownExactlyWhen | apps/api/src/trades/trades.service.ts:28-35 | One given walk, finished, has shown a row that was there at the start if and only if the cursor of none of its pages stepped over it. |
| PageWalk.LostIsSameMillisecond | apps/api/src/common/cursor-pagination.ts:13-20 | What a cursor steps over is exactly older rows of the same millisecond as a last row that is not on the millisecond. |
| PageWalk.MillisecondsMissNothing | apps/api/src/trades/trades.service.ts:28-35 | With all timestamps on the millisecond nothing is missed. |
| PageWalk.SameMillisecondIsMissed | apps/api/src/common/cursor-pagination.ts:8-20 | A table of two rows whose older row is never shown, against the comment that ties never skip a row. |
| PageWalk.WalkIsShort | apps/api/src/trades/trades.service.ts:50-56 | A walk has at most one page more than the table has rows, so it ends, on a fixed table and on a growing one that stops growing. |

## Left out

- Symbols, creation times of quotes and trades, surrogate ids of balance and ledger rows and
  the ledger's `reason`: carried along by the source, decided on nowhere in the modelled path.
  A ledger entry's `ref_type` and `ref_id` are one value, `Ref`.
- Currency codes are their rank in the database's sort order; only equality and order matter.
- The REJECTED trade status: no code path writes it.
- `getBalances` and the mappers of trades and balances: field copying. `CreateDeposit`
  therefore ends with its transaction and does not return the list of balances.
- NaN, Infinity, signs other than a leading minus, hexadecimal and an upper-case E in the
  text given to the Decimal constructor: the request pattern excludes them, and
  prices from the market feed are plain decimals.
- Binance and the pricing service: bid and ask are arbitrary inputs.
- RedisService's commands succeed or fail as a parameter says (`reachable`), and failing is doing
  nothing; that a failure never changes an answer is GetQuoteById, and commands that fail
  for the caller but still reach the cache are in QuoteCache.
- JSON, base64url (section 5 of RFC 4648) and ISO date text: taken as injective.
- GetTradeHistory: the running service reads a query string; here the cursor arrives
  as absent, well formed or malformed. An id in a hand-made cursor that is no uuid is not modelled.
- Page limits: the request validation also caps them at 100; here any positive limit is allowed, so
  the walk that misses a row in PageWalk.WalkMissing is within the cap for tables of up to 100 rows.
- LedgerService.Service.Debit: an amount outside bigint, which no stored quote has, is reported as insufficient balance.
- ExecuteTrade, CreateQuote, LoadQuote and GetQuoteById of the service classes run as one call
  on tables nobody else changes meanwhile, apart from what the first lookup saw; calls
  interleaved with others are the subject of Protocol and QuoteCache.
- In-place row locks in LedgerService: a single call meets no other, so `FOR UPDATE` has no
  effect there; lock order and waiting are in Protocol.
- The web application, authentication, environment validation, health checks, migrations,
  logging, password hashing: no part of the settlement path.
