# AetherDEX: verified model

A Dafny model of the parts of AetherDEX whose correctness spans several functions or a whole
run: the liquidity indexer and position reducer, the keeper that executes take-profit and
stop-loss orders, the verified tick window behind quotes, the exact price and fee arithmetic,
the counters kept in a key-value store with expiry, and two Durable Objects.

`dafny verify dfyconfig.toml` checks everything.

## How it is organised

Code that updates state in place is a class whose methods are specified by functions on
values; runs are sequences of steps of those functions, and the theorems are about runs.

| files | what they model |
|---|---|
| `LiquidityEvents`, `PositionReducer`, `EventTable`, `BatchIndexer`, `IndexerRuns`, `ChainBooks` | decoding, the fold over a token's events, the SQL tables, the batch indexer, every interleaving of ticks, backfills, crashes and the second indexer, and a position's books kept straight from the chain's logs |
| `KeeperSigner`, `OrderTable`, `QueueHandler`, `OrderRuns` | one transaction signer with its promise-chain lock, the order rows, one queue delivery, and every interleaving of service calls, keeper ticks and deliveries |
| `TickWindow` | the tick scan and the quote that is accepted only inside the scanned window |
| `PriceMath`, `DecimalText`, `PoolCreation`, `ConstantProduct`, `SwapSplit`, `ProtocolFee` | exact integer arithmetic and decimal text |
| `SafetyConfig`, `RateLimit`, `CircuitBreaker` | counters in a store that forgets |
| `PriceHub`, `SiweNonce` | the price fan-out object and the sign-in nonce object |
| `Common`, `Sorting` | sequences, filters, and a stable sort with its uniqueness theorems |

Answers from outside (RPC, receipts, clock readings, cache contents, the Uniswap SDK) are
inputs of the methods and steps, and may be anything unless a `requires` says otherwise.
A Durable Object handles one request at a time and its consecutive storage writes are stored
together. Limiter and breaker requests follow one another. The chain is immutable, a block
and log index name one log, and so do a transaction and log index.

## Where the code does less than its description

- The cursor can move backwards when ticks overlap (`CursorIsNotMonotone`): exactly at a late
  cursor write (`CursorFallsIff`), which is possible exactly when a tick that has read the
  cursor ends short of it or of another such tick (`FallIsPossibleIff`). When no tick reads
  the cursor while another of its indexer is at work, it never falls (`CursorsGrow`). Coverage
  of `[start, cursor)` holds in either case (`Coverage`).
- `isActive` is not "liquidity is positive": it can be false with liquidity
  (`ReopenedPositionStaysInactive`) and true without (`EmptiedThenTransferredIsActive`).
  `ActiveIffLiquidity` says for which logs the two agree.
- The handler's expiry UPDATE has no status guard, so a cancelled or executed order can be
  overwritten as expired (`CancelledThenExpired`). `SettledRowChangesIff` says exactly when a
  settled row changes; when nothing comes between the handler's read and its write it never
  does (`SettledForGood`).
- A circuit opening is forgotten with its record. After that, failing calls need not be
  spaced although the failures are recent (`ForgottenOpeningIsNotSpaced`). `NextIsRejectedIff`
  and `NextIsTrialIff` say exactly which call is followed by quiet and which is a trial.
  Nothing keeps a second probe out while a trial runs (`SecondProbeGetsThrough`).
- The pool form's length guard refuses some positive prices that fit 160 bits, because it
  counts leading zeros (`LeadingZerosRefused`); `GuardDiffersIff` says exactly which.
- The tick scan drops an initialised tick whose net liquidity is zero
  (`CancellingPositionsUncounted`), so the crossed count is of initialised ticks only when no
  such tick is passed (`CountsInitializedIff`).
- A hub whose attachment write fails acknowledges a subscription that the next hibernation
  loses (`ChangeSurvivesIff`). A failing send loses nothing.
- The order service reads a change count from the UPDATE's result. Where the SQL client
  returns rows instead, its not-found error cannot occur; the table is the same either way.

## Model

| member | source | states |
|---|---|---|
| PositionReducer.ReduceV3PositionEvents | apps/api/src/services/v3-position-reducer.ts:16-41 | the loop over the state map computes the fold of the sorted events |
| PositionReducer.OrderIndependent | apps/api/src/services/v3-position-reducer.ts:16-41 | with distinct (block, log index) keys, two deliveries of the same events reduce to the same states whatever their order |
| PositionReducer.OrderMattersOnTies | apps/api/src/services/v3-position-reducer.ts:17-20 | two different events with one key reduce differently in the two orders, so distinct keys are needed |
| PositionReducer.Resumable | apps/api/src/services/v3-position-reducer.ts:16-41 | folding a later batch onto the earlier result equals reducing everything at once |
| PositionReducer.FilterCommutes | apps/api/src/services/v3-position-reducer.ts:16-41 | one token's state is the same whether or not the other tokens' events are present |
| PositionReducer.MissingCountsAsZero | apps/api/src/services/v3-position-reducer.ts:81-83 | an event without an amount acts as if the amount were zero |
| PositionReducer.Accounting | apps/api/src/services/v3-position-reducer.ts:43-79 | liquidity is increases less accepted decreases, cost basis less amount is accepted withdrawals, fees are the collects, the owner is the last recipient in chain order, the flag follows the last change; with non-negative amounts nothing goes negative |
| PositionReducer.ReopenedPositionStaysInactive | apps/api/src/services/v3-position-reducer.ts:57-66 | an increase after a full decrease leaves a positive position flagged inactive |
| PositionReducer.EmptiedThenTransferredIsActive | apps/api/src/services/v3-position-reducer.ts:44-46 | a transfer after a full decrease leaves an empty position flagged active |
| PositionReducer.ActiveIffLiquidity | apps/api/src/services/v3-position-reducer.ts:43-79 | for non-negative amounts the flag agrees with "liquidity is positive" exactly when the last decrease to set it left something or nothing was added since, or, where no decrease set it last, the position holds liquidity (or went to nobody holding none) |
| EventTable.Database.InsertLiquidityEvent | apps/api/src/db/queries.ts:161-173 | a row whose (transaction, log index) key exists changes nothing, any other is appended, and afterwards the key exists |
| EventTable.Database.SetIndexerCursor | apps/api/src/db/queries.ts:185-195 | the indexer's cursor reads as set and every other cursor reads as before |
| EventTable.Database.ListLiquidityEvents | apps/api/src/db/queries.ts:197-206 | exactly the table's rows of that protocol and token, each as often as it is there, sorted by (block, log index) |
| IndexerRuns.InsertKeepsRows | apps/api/src/db/queries.ts:161-173 | inserting a mined log's row keeps every row, keeps keys unique, and leaves that very row in the table |
| EventTable.Database.UpdateLiquidityPosition | apps/api/src/db/queries.ts:208-234 | an existing position row is replaced, a missing one is reported and nothing is written |
| EventTable.Database.ReconcileV3Position | apps/api/src/services/position.service.ts:127-178 | a row is written exactly when the reduced owner is the caller and the row exists, each column then being the reduced state's field of that name; otherwise nothing changes |
| BatchIndexer.TickRangeIsSeen | apps/api/src/services/indexer.service.ts:376-382 | every window of a tick starts exactly at the cursor or first block and ends at a block the node has reported |
| BatchIndexer.FirstWindow | apps/api/src/services/indexer.service.ts:126-133 | without a cursor the first window starts at the configured block, else 10000 blocks back or at zero |
| BatchIndexer.BatchWindow | apps/api/src/services/indexer.service.ts:376-382 | a window starts at the cursor, is as long as batch size and head allow, and is missing exactly when the cursor is past the head |
| BatchIndexer.V3Window | apps/api/src/workers/v3-indexer-cursor.ts:5-21 | the older indexer's window holds at most 2000 blocks, stops twelve short of the head, is as long as both allow and starts at the deployment block without a cursor |
| BatchIndexer.IndexerService.LoadTimestamps | apps/api/src/services/indexer.service.ts:163-176 | fails exactly when some needed block has no timestamp, else every event's block maps to its own |
| BatchIndexer.IndexerService.PersistBatch | apps/api/src/services/indexer.service.ts:308-333 | success leaves all decoded event rows inserted, failure a prefix of them and nothing else; it fails exactly on a missing timestamp, then with nothing written, or a failing insert |
| BatchIndexer.IndexerService.WriteRows | apps/api/src/services/indexer.service.ts:326-328 | items are written one by one up to the failing one, each event row stamped with its own block, and the table holds the rows of exactly those |
| BatchIndexer.IndexerService.IndexWindow | apps/api/src/services/indexer.service.ts:336-361 | the rows of the logs answered for that block range are persisted whole or as a prefix; it fails exactly when the logs, a timestamp or an insert fails |
| BatchIndexer.IndexerService.IndexBatch | apps/api/src/services/indexer.service.ts:363-390 | every outcome: the cursor moves exactly when it could be read, the whole window is in the table and the write succeeded, and then to the block after the window; a failure at any request leaves it alone with at most the window's rows in the table |
| BatchIndexer.IndexerService.IndexRange | apps/api/src/services/indexer.service.ts:392-413 | an inverted range is refused and changes nothing; a backfill persists its range's rows, fails exactly when its window does, and never moves a cursor |
| IndexerRuns.RealRowsAgree | apps/api/src/db/queries.ts:171 | two rows of mined logs with one key, or at one chain position, are the same row, whichever indexer wrote them |
| IndexerRuns.WindowRowsExact | apps/api/src/services/indexer.service.ts:336-361 | the rows of a window are those of the relevant mined logs inside it, no more and no fewer |
| IndexerRuns.StepKeepsInv | apps/api/src/services/indexer.service.ts:363-413 | mining, reading the cursor, fetching, each single insert, the cursor write and a crash all keep the coverage invariant |
| IndexerRuns.Coverage | apps/api/src/services/indexer.service.ts:363-413 | in every run of overlapping ticks, backfills and crashes of all four indexers, every relevant log below a cursor is in the table, every row is a mined log's, and no key occurs twice |
| IndexerRuns.FixedStartsStay | apps/api/src/services/indexer.service.ts:126-133 | where the first block is configured, coverage starts there in every run |
| IndexerRuns.CursorIsNotMonotone | apps/api/src/services/indexer.service.ts:376-387 | overlapping ticks can set a cursor back |
| IndexerRuns.CursorFallsIff | apps/api/src/services/indexer.service.ts:384-387 | one step lowers a cursor exactly when it is the due cursor write of a live tick whose window ends before the cursor's present place |
| IndexerRuns.CursorsGrow | apps/api/src/services/indexer.service.ts:376-387 | in every run in which a tick reads its cursor only while no other tick of that indexer is between its own read and its end, no cursor ever falls |
| IndexerRuns.FallIsPossibleIff | apps/api/src/services/indexer.service.ts:376-387 | from any state, the ticks that have read the cursor can lower it in some order of finishing exactly when one of them ends short of the cursor or of another |
| IndexerRuns.TableReducesToChain | apps/api/src/services/position.service.ts:127-151 | whatever the delivery history, a fully indexed token reduces from the table to exactly the fold of its chain-ordered log |
| ChainBooks.TableReducesToBooks | apps/api/src/services/v3-liquidity-events.ts:114-166 | end to end, without the decoder: a fully indexed token has a reduced state exactly when some log of it counts, and liquidity, amounts, cost basis, fees, owner and flag are what the chain's increase, decrease, collect and transfer logs add up to, decreases beyond what is left not counting |
| ChainBooks.EventBooked | apps/api/src/services/v3-position-reducer.ts:43-79 | the reducer rejects exactly the decreases the chain's books reject, and books every other log |
| ChainBooks.RowForIff | apps/api/src/services/v3-liquidity-events.ts:98-197 | the row an indexer writes for a log, column by column: which contract and which kind of log, event type, ids, ticks, amounts, protocol and timestamp |
| ChainBooks.CoveredLogsAreTold | apps/api/src/services/indexer.service.ts:363-413 | in every run each log an indexer watches and keeps, between its start and its cursor, has a row that tells it column by column |
| ChainBooks.RowsTellMinedLogs | apps/api/src/services/indexer.service.ts:308-413 | in every run each row tells, column by column, a mined log that some indexer watches and keeps |
| IndexerRuns.CrashedTickIsRun | apps/api/src/services/indexer.service.ts:384-387 | a tick that dies after n inserts leaves n rows of its window and the cursor alone |
| IndexerRuns.CommittedTickIsRun | apps/api/src/services/indexer.service.ts:384-389 | a tick that ends leaves its whole window and its cursor just past it |
| IndexerRuns.TickMatchesMachine | apps/api/src/services/indexer.service.ts:363-390 | with truthful answers, every outcome the live tick promises, each failure included, is the rows and cursors some run of the machine leaves, with nothing else touched |
| IndexerRuns.BackfillMatchesMachine | apps/api/src/services/indexer.service.ts:392-413 | likewise every outcome of a backfill |
| KeeperSigner.Signer.SendTransaction | apps/api/src/lib/keeper-signer.ts:449-531 | the nonce used is at least the node's count and the local floor and is one of the two; the floor moves exactly when a relay or node accepted; errors come from the first failing stage; confirmed means a log of the target in a successful receipt |
| KeeperSigner.PreflightOutcome | apps/api/src/lib/keeper-signer.ts:407-442 | which chain, node, balance and gas-price answers lead to which error, in that order, and which nonce a passed preflight signs with |
| KeeperSigner.SubmitOutcome | apps/api/src/lib/keeper-signer.ts:453-523 | only an accepted hash submits; a relay's transport fault or 5xx is retryable, its other refusals are not, signing and public faults are RPC faults |
| KeeperSigner.Reachable | apps/api/src/lib/keeper-signer.ts:372-387 | every interleaving of submissions keeps the lock's queue shape and the nonce floor's meaning |
| KeeperSigner.MutualExclusion | apps/api/src/lib/keeper-signer.ts:375-387 | no two submissions are ever between acquiring and releasing |
| KeeperSigner.ArrivalOrder | apps/api/src/lib/keeper-signer.ts:375-387 | submissions enter in the order they arrived |
| KeeperSigner.NoncesIncrease | apps/api/src/lib/keeper-signer.ts:436-441 | accepted nonces strictly increase for any, even stale, answers of the node |
| KeeperSigner.NoncesConsecutive | apps/api/src/lib/keeper-signer.ts:525-527 | they are consecutive when the node never reports beyond the floor |
| KeeperSigner.StepsUseUpWork | apps/api/src/lib/keeper-signer.ts:375-387 | every effective step without a new arrival uses up work, so no schedule runs forever |
| KeeperSigner.FirstUnfinishedMoves | apps/api/src/lib/keeper-signer.ts:375-387 | the first unfinished submission can always move, whatever the outside answers, so the lock is always released |
| OrderTable.TpSlService.CreateOrder | apps/api/src/services/tp-sl.service.ts:167-191 | refused exactly when the chain's on-chain id already has a row; else a new pending row under an unused id, all others unchanged |
| OrderTable.TpSlService.CancelOrder | apps/api/src/services/tp-sl.service.ts:258-280 | only a pending row of that user and chain changes, to cancelled; not found is reported exactly when nothing matched and the client counts changes |
| OrderTable.TpSlService.ExecuteOrder | apps/api/src/services/tp-sl.service.ts:282-306 | only a pending row of that chain changes, to executed with the transaction recorded; not found is reported exactly when nothing matched and the client counts changes |
| OrderTable.TpSlService.ExpireOrder | apps/api/src/services/tp-sl.service.ts:308-329 | only a pending row of that chain changes, to expired; not found is reported exactly when nothing matched and the client counts changes |
| QueueHandler.Worker.HandleTpSlEvaluate | apps/api/src/workers/queue-handler.ts:290-498 | one delivery writes what the specification of a delivery says and throws exactly on a transient submission error |
| QueueHandler.SubmitsIff | apps/api/src/workers/queue-handler.ts:297-434 | the handler submits exactly for a pending row of the message's chain with an on-chain id, deadline ahead at both readings, spot and the cached else on-chain TWAP both at or below the trigger for take-profit zero-for-one and stop-loss one-for-zero, both at or above it otherwise, on the keeper's chain with a configured contract |
| QueueHandler.DeliveryOutcome | apps/api/src/workers/queue-handler.ts:297-485 | a delivery changes only its own pending row; to executed exactly under those conditions, written out case by case in inequalities, and a successful receipt with the contract's execution log; to expired exactly when the deadline passed; the hash is recorded for every submission that neither failed nor reverted |
| QueueHandler.ThrownIff | apps/api/src/workers/queue-handler.ts:443-466 | a delivery is retried exactly when it submitted and met an RPC fault, a retryable relay fault or a failed wait for the receipt |
| QueueHandler.ThrownWritesNothing | apps/api/src/workers/queue-handler.ts:443-466 | a delivery that is retried has written nothing |
| QueueHandler.Worker.ProcessQueueBatch | apps/api/src/workers/queue-handler.ts:190-231 | messages of every kind are taken in order, order messages on the table each leaves to the next, and each is acked exactly when its own handling did not throw; an unknown kind is acked, a missing body retried |
| QueueHandler.AckedIff | apps/api/src/workers/queue-handler.ts:190-231 | which message of a batch is acked, kind by kind |
| QueueHandler.RetriedBatchWritesNothing | apps/api/src/workers/queue-handler.ts:190-231 | a batch that is retried whole has changed no order |
| OrderRuns.MessagesAgree | apps/api/src/workers/cron-handler.ts:213-238 | in every run each queued message's on-chain id, pool, type, direction, amounts, trigger, window, slippage, deadline, user and chain are those of its row |
| OrderRuns.TickSelects | apps/api/src/workers/cron-handler.ts:182-190 | a keeper tick takes at most fifty rows, each pending on its chain with the deadline ahead of its clock |
| OrderRuns.TickSends | apps/api/src/workers/cron-handler.ts:213-238 | a selected row's message is queued exactly when it has an on-chain id and the send succeeds |
| OrderRuns.TickExpires | apps/api/src/workers/cron-handler.ts:240-246 | a finished tick expires exactly the rows pending on its chain whose deadline its clock has reached |
| OrderRuns.StepKeepsInv | apps/api/src/workers/queue-handler.ts:297-485 | every step of the service, a keeper tick and a delivery keeps messages, deliveries in progress and recorded executions truthful |
| OrderRuns.ExecutedOnlyWithCause | apps/api/src/workers/queue-handler.ts:297-485 | a row is executed only by the order service or with a successful receipt of the recorded transaction holding the contract's log, spot and TWAP both at or below the row's trigger for take-profit zero-for-one and stop-loss one-for-zero and both at or above it otherwise, the deadline ahead at authorisation and the chain matching, under duplicated and reordered messages |
| OrderRuns.EvidenceCarried | apps/api/src/workers/queue-handler.ts:323-449 | the prices, clock and receipt a delivery acts on are the ones it was given |
| OrderRuns.ServiceUpdates | apps/api/src/services/tp-sl.service.ts:258-329 | the service steps of a run change the one pending row they name as the service's methods promise |
| OrderRuns.AtMostOneDeparture | apps/api/src/services/tp-sl.service.ts:258-329 | an order leaves pending at most once over any run of service, keeper and delivery steps |
| OrderRuns.OnchainOrdersAreUnique | apps/api/migrations/0009_unique_tp_sl_onchain_order_id.sql:37-38 | in every run no two rows of a chain share an on-chain order |
| OrderRuns.SettledRowChangesIff | apps/api/src/workers/queue-handler.ts:309-316 | a settled row's status changes exactly when a late unguarded expiry reaches it, and then to expired |
| OrderRuns.SettledForGood | apps/api/src/workers/queue-handler.ts:297-316 | when nothing is scheduled between the handler's read, deadline check and expiry write, a settled order keeps its status for the rest of the run |
| OrderRuns.NoStaleExpiry | apps/api/src/workers/queue-handler.ts:297-316 | under such a schedule, whatever else interleaves, an expiry write always finds its row still pending |
| OrderRuns.CancelledThenExpired | apps/api/src/workers/queue-handler.ts:311 | a run in which a user's cancellation is overwritten by expiry |
| OrderRuns.UninterruptedDelivery | apps/api/src/workers/queue-handler.ts:290-498 | the machine's delivery steps, taken without interruption, do what the handler method does |
| TickWindow.CandidateTicks | apps/api/src/services/chain-state-reader.ts:249-259 | the loop lists each aligned tick within the scan distance of the anchor exactly once |
| TickWindow.WindowBoundaries | apps/api/src/services/chain-state-reader.ts:243-276 | the window's ends are aligned and the active tick lies inside, negative ticks included |
| TickWindow.ScanIsExact | apps/api/src/services/chain-state-reader.ts:260-276 | the scanned list is strictly ascending and holds exactly the aligned ticks of the window with non-zero net liquidity |
| TickWindow.GetPoolState | apps/api/src/services/chain-state-reader.ts:243-276 | the snapshot's list is an exact index of the on-chain tick table over a window around the active tick |
| TickWindow.QuoteErrors | apps/api/src/services/quote-engine.ts:186-241 | which amount, liquidity, simulation answer and final tick end in which error |
| TickWindow.CrossedAreAll | apps/api/src/services/quote-engine.ts:239-245 | inside the window the listed crossed ticks are all the liquidity-changing ticks of the on-chain table between start and end |
| TickWindow.AcceptedQuoteMatchesChain | apps/api/src/services/quote-engine.ts:186-255 | a quote is accepted exactly when amount and liquidity are positive, the simulation answered and its final tick lies in the window; it carries the simulation's output and final tick, and its crossed count and their summed net liquidity equal those of the unbounded on-chain table up to that tick |
| TickWindow.CountsInitializedIff | apps/api/src/services/quote-engine.ts:239-245 | the count never exceeds the initialised ticks passed, and equals it exactly when none of them has cancelling positions |
| TickWindow.CancellingPositionsUncounted | apps/api/src/services/quote-engine.ts:239-245 | two positions meeting at a tick give an initialised tick that a crossing does not count |
| PriceMath.IntegerSqrt | apps/web/src/routes/pools.new.tsx:385-393 | Newton's loop ends with the exact floor square root of every natural number |
| PriceMath.SqrtUnique | apps/web/src/routes/pools.new.tsx:385-393 | there is only one such root |
| PriceMath.PriceRoundTrip | apps/api/src/services/verification.service.ts:183-187 | encoding a price S and reading it back never exceeds S and loses at most 3·isqrt(S) + 2 |
| PriceMath.EncodingIsFloor | apps/web/src/routes/pools.new.tsx:377-383 | the encoding is the price's root in Q96 over 10^9, rounded down |
| PriceMath.DecodingIsFloors | apps/api/src/services/verification.service.ts:183-187 | the decoding squares, drops 96 bits, scales to 18 decimals and drops 96 bits, rounding down both times |
| DecimalText.FormatRoundTrip | apps/web/src/routes/swap.tsx:392-411 | printing any raw amount at any number of decimals gives text the price parser reads back as the amount; only an empty string at zero decimals gives none |
| DecimalText.FormatShape | apps/web/src/routes/swap.tsx:392-411 | the printed whole part has the digits beyond the decimals, at least one, and the fraction at least one digit and no trailing zero but a single one |
| DecimalText.ScaledExactly | apps/web/src/routes/pools.new.tsx:377-381 | a fraction that fits is scaled exactly: all digits times ten for each missing place, plain digits included |
| DecimalText.ScaledRoundsDown | apps/web/src/routes/pools.new.tsx:377-381 | a longer fraction is cut, rounding down |
| DecimalText.ScaledWhole | apps/web/src/routes/pools.new.tsx:377-381 | digits without a dot are scaled by the full power of ten |
| DecimalText.ValueOfPrint | apps/web/src/routes/pools.new.tsx:377-381 | reading a number's own decimal digits returns the number |
| PoolCreation.DecimalToSqrtPriceX96 | apps/web/src/routes/pools.new.tsx:377-383 | a decimal price is encoded as the square root of its scaled value, in Q96 |
| PoolCreation.IsDecimalSqrtPriceWithinUint160 | apps/web/src/routes/pools.new.tsx:144-148 | true exactly when the whole part is short and the encoding fits 160 bits |
| PoolCreation.FitsUint160Iff | apps/web/src/routes/pools.new.tsx:377-383 | an 18-decimal price encodes to 160 bits exactly below 2^128 |
| PoolCreation.PriceFitsIff | apps/web/src/routes/pools.new.tsx:377-383 | for every decimal text only the whole part decides: it fits exactly when that is below 2^128 |
| PoolCreation.GuardDiffersIff | apps/web/src/routes/pools.new.tsx:144-148 | for every decimal text the guard departs from the 160-bit range exactly when the whole part has more than forty characters yet a value below 2^128, which takes a leading zero |
| PoolCreation.LeadingZerosRefused | apps/web/src/routes/pools.new.tsx:69-71 | the price 1 with forty leading zeros is positive, fits and encodes to a non-zero price, and is refused |
| PoolCreation.PriceErrors | apps/web/src/routes/pools.new.tsx:39-99 | the price field is flagged exactly when the price is not acceptable |
| PoolCreation.PriceAcceptableIff | apps/web/src/routes/pools.new.tsx:62-74 | which texts name an acceptable price, in terms of their digits and values alone |
| PoolCreation.ValidatePoolCreationForm | apps/web/src/routes/pools.new.tsx:39-99 | each field is flagged exactly for its own fault, with the source's limits, and a request comes back, carrying the form's fields, exactly when no field is flagged |
| PoolCreation.AcceptedIntent | apps/web/src/routes/pools.new.tsx:101-118 | an accepted form opens the pool at a non-zero 160-bit price that reads back as the entered one up to the encoding error |
| ConstantProduct.QuoteIsLargest | apps/api/src/services/swap.service.ts:161-174 | the quote is the largest output whose constant-product price the fee-reduced input covers |
| ConstantProduct.NothingToQuote | apps/api/src/services/swap.service.ts:167-168 | no input or an empty side quotes zero |
| ConstantProduct.OutputBelowReserve | apps/api/src/services/swap.service.ts:161-174 | the output is never negative and stays below the reserve, error inputs included |
| ConstantProduct.OutputGrows | apps/api/src/services/swap.service.ts:161-174 | a larger input never buys less |
| ConstantProduct.ProductNeverFalls | apps/api/src/services/swap.service.ts:161-174 | the product of the reserves never falls, for fees 0 to 10000 |
| ConstantProduct.SplitNeverPaysMore | apps/api/src/services/swap.service.ts:161-174 | two successive swaps on updated reserves never pay more than one swap of the sum |
| ConstantProduct.SplittingNeverPays | apps/api/src/services/swap.service.ts:161-174 | nor do any number of pieces |
| ConstantProduct.NoProfitThereAndBack | apps/api/src/services/swap.service.ts:161-174 | swapping the proceeds back never returns more than was put in |
| SwapSplit.FindV4SwapAmount | apps/web/src/lib/v4-liquidity.ts:162-191 | fails exactly below 3 units; else the returned split has its own quote, its error is the distance between the remaining input and the input token's part of the minted amounts, no probe of twelve rounds has a smaller such distance and no earlier one an equal one, and 1 ≤ swap < amount |
| SwapSplit.Probe | apps/web/src/lib/v4-liquidity.ts:169-185 | one round quotes the amount and reports the distance between the input token's part of the minted amounts and the remaining input, and whether that part falls short |
| SwapSplit.SearchSteps | apps/web/src/lib/v4-liquidity.ts:164-189 | the search starts on 1 to amount-1, probes the middle, and moves up exactly when the input token's part of the minted amounts is below the remaining input |
| SwapSplit.RoundHalves | apps/web/src/lib/v4-liquidity.ts:167-189 | every round at least halves the bracket |
| SwapSplit.RoundsShrink | apps/web/src/lib/v4-liquidity.ts:167-189 | after n rounds the bracket's width times 2^n is at most the range |
| SwapSplit.CrossoverStaysBracketed | apps/web/src/lib/v4-liquidity.ts:167-189 | the crossover of a monotone predicate stays in the bracket, whose outer neighbours have been probed |
| SwapSplit.NeighboursProbed | apps/web/src/lib/v4-liquidity.ts:167-189 | for amounts up to 4096 both in-range neighbours of the crossover have been probed |
| SwapSplit.BestIsOptimal | apps/web/src/lib/v4-liquidity.ts:162-191 | for a monotone gap and amounts up to 4096, the returned split has the least error of all splits |
| ProtocolFee.SplitFee | apps/api/src/lib/protocol-fee.ts:62-77 | n pieces pay at most the fee of their total, and at most n-1 units less |
| ProtocolFee.FeeIsFloor | apps/api/src/lib/protocol-fee.ts:62-77 | the fee is a thousandth rounded down, the rest is left, and a negative amount is refused |
| RateLimit.RateLimiter.ConsumeRateLimit | apps/api/src/middleware/rate-limit.ts:68-98 | the outcome and the rewritten entry follow from the window visible in the store, with a TTL outlasting the window |
| RateLimit.ExpiryIsInvisible | apps/api/src/middleware/rate-limit.ts:68-98 | on every sequential trace, and however long expired entries linger, each request gets the outcome of a counter that never forgets |
| RateLimit.FirstMaxAreAdmitted | apps/api/src/middleware/rate-limit.ts:87-97 | the k-th request of a window is admitted exactly when k is at most the limit, with limit minus k remaining |
| RateLimit.WindowOfRequest | apps/api/src/middleware/rate-limit.ts:87-88 | a request joins the window of an earlier request of its caller that has not reset, else it opens one of full length |
| RateLimit.OneWindowAtATime | apps/api/src/middleware/rate-limit.ts:68-98 | reset times lie at least a window apart, so a stretch of one window length holds at most one window's admissions |
| RateLimit.AtMostMaxPerWindow | apps/api/src/middleware/rate-limit.ts:68-98 | one window admits at most max requests |
| RateLimit.AtMostTwiceMaxInAnyInterval | apps/api/src/middleware/rate-limit.ts:68-98 | any interval of one window length, ends included, admits at most twice max |
| CircuitBreaker.Breaker.RecordFailure | apps/api/src/middleware/circuit-breaker.ts:89-130 | the live count grows by the weight; reaching the threshold or failing a trial opens the circuit |
| CircuitBreaker.Breaker.Handle | apps/api/src/middleware/circuit-breaker.ts:152-215 | a request is rejected or handled as the live state says, and its verdict is recorded |
| CircuitBreaker.ClosedMeansBelowThreshold | apps/api/src/middleware/circuit-breaker.ts:89-130 | in every sequential run, no live state record means the live failure count is below the threshold |
| CircuitBreaker.StreakAddsUp | apps/api/src/middleware/circuit-breaker.ts:107-122 | over failing calls with the circuit closed, each over while the previous failure's record is live, the stored count is the sum of their weights |
| CircuitBreaker.OpensAtThreshold | apps/api/src/middleware/circuit-breaker.ts:107-126 | the circuit opens at exactly the first such call whose sum reaches the threshold |
| CircuitBreaker.TurnedAwayIff | apps/api/src/middleware/circuit-breaker.ts:167-180 | a request is turned away exactly while a live record's cooldown runs, and told the seconds left, rounded up |
| CircuitBreaker.SuccessOutcome | apps/api/src/middleware/circuit-breaker.ts:203-214 | a successful trial forgets everything, other successes and rejections change nothing |
| CircuitBreaker.FailedTrialOutcome | apps/api/src/middleware/circuit-breaker.ts:99-105 | a failed trial opens the circuit anew and leaves the failure count |
| CircuitBreaker.SecondProbeGetsThrough | apps/api/src/middleware/circuit-breaker.ts:177-179 | while a trial runs another request is let through as a trial too |
| CircuitBreaker.QuietForACooldown | apps/api/src/middleware/circuit-breaker.ts:167-214 | after an opening no handler runs within a cooldown |
| CircuitBreaker.StreakSpansCooldowns | apps/api/src/middleware/circuit-breaker.ts:167-214 | n handler calls of which each but the last leaves the circuit open span at least n-1 cooldowns |
| CircuitBreaker.FailedTrialReopens | apps/api/src/middleware/circuit-breaker.ts:89-130 | a failing trial leaves the circuit open again |
| CircuitBreaker.NextIsTrialIff | apps/api/src/middleware/circuit-breaker.ts:167-185 | the first call let through after an opening is a trial exactly when it starts before the opening's record runs out |
| CircuitBreaker.LiveStreakSpansCooldowns | apps/api/src/middleware/circuit-breaker.ts:89-214 | n failing calls in a row that follow an opening, each begun while the previous record is live, span at least n-1 cooldowns |
| CircuitBreaker.NextIsRejectedIff | apps/api/src/middleware/circuit-breaker.ts:167-185 | a request arriving as a call finishes is rejected exactly when that call left the circuit open |
| CircuitBreaker.ForgottenOpeningIsNotSpaced | apps/api/src/lib/safety-config.ts:54-56 | once an opening's record has expired, two failing calls can follow each other at once |
| PriceHub.WebSocketHubDO.Connect | apps/api/src/durable-objects/websocket-hub-do.ts:65-78 | the socket is connected with an empty watch list in memory and in its attachment |
| PriceHub.WebSocketHubDO.HydrateSubscribers | apps/api/src/durable-objects/websocket-hub-do.ts:167-177 | connected sockets missing from memory come back with their attachment's list, the others are untouched |
| PriceHub.WebSocketHubDO.PersistWatched | apps/api/src/durable-objects/websocket-hub-do.ts:179-185 | a successful write replaces that socket's attachment, a failed one changes nothing |
| PriceHub.WebSocketHubDO.SendToSocket | apps/api/src/durable-objects/websocket-hub-do.ts:187-194 | a socket to which a send throws is forgotten in memory only |
| PriceHub.WebSocketHubDO.Ping | apps/api/src/durable-objects/websocket-hub-do.ts:105-139 | a message that is only answered rehydrates the map and changes no watch list |
| PriceHub.WebSocketHubDO.WebSocketMessage | apps/api/src/durable-objects/websocket-hub-do.ts:105-139 | a non-empty pool id is added to or removed from a connected socket's list, in memory and attachment; anything else only rehydrates |
| PriceHub.WebSocketHubDO.WebSocketClose | apps/api/src/durable-objects/websocket-hub-do.ts:141-148 | the socket leaves the connected sockets and the map |
| PriceHub.WebSocketHubDO.BroadcastPrice | apps/api/src/durable-objects/websocket-hub-do.ts:196-212 | the price reaches exactly the rehydrated sockets that watch the token or nothing, except those whose send throws, which are forgotten |
| PriceHub.RunRefinesAwake | apps/api/src/durable-objects/websocket-hub-do.ts:105-212 | after any run with successful attachment writes the rehydrated map is the map of a hub that never sleeps |
| PriceHub.HibernationIsInvisible | apps/api/src/durable-objects/websocket-hub-do.ts:105-212 | for any sequence of connects, messages, closes, prices, failing sends and hibernations, each price reaches exactly the sockets a hub that never sleeps would reach |
| PriceHub.HibernationsCanBeStruck | apps/api/src/durable-objects/websocket-hub-do.ts:160-177 | striking the hibernations from a history changes no delivery |
| PriceHub.ReachedIff | apps/api/src/durable-objects/websocket-hub-do.ts:105-212 | a price reaches a socket exactly when it is connected, the send works, and its latest message about the token subscribed or no subscription of it stands |
| PriceHub.ChangeSurvivesIff | apps/api/src/durable-objects/websocket-hub-do.ts:179-185 | every price goes where it should after the next hibernation exactly when the attachment write succeeded or the message changed nothing |
| SiweNonce.SiweNonceDO.Issue | apps/api/src/durable-objects/siwe-nonce-do.ts:31-35 | the record and its alarm are set to the given expiry |
| SiweNonce.SiweNonceDO.Consume | apps/api/src/durable-objects/siwe-nonce-do.ts:37-50 | succeeds exactly with an unexpired record, and leaves neither record nor alarm |
| SiweNonce.SiweNonceDO.Alarm | apps/api/src/durable-objects/siwe-nonce-do.ts:52-62 | a ringing alarm clears an expired record and is armed again for an unexpired one |
| SiweNonce.AlarmGuardsRecord | apps/api/src/durable-objects/siwe-nonce-do.ts:31-62 | after any run a stored record has its alarm armed at its expiry, and an alarm has a record |
| SiweNonce.OneConsumePerIssue | apps/api/src/durable-objects/siwe-nonce-do.ts:31-62 | over any run, successful consumes plus a record still stored never exceed issues |
| SiweNonce.RingKeepsIff | apps/api/src/durable-objects/siwe-nonce-do.ts:52-62 | a ringing alarm keeps a record exactly while it has time left, alarm included |
| SiweNonce.ConsumeSucceedsIff | apps/api/src/durable-objects/siwe-nonce-do.ts:37-50 | a consume succeeds exactly when the latest issue has not expired and no consume has succeeded since; alarms and failed consumes never decide |

## Left out

- PriceHub.WebSocketHubDO.Connect: the attachment write at connect is taken to succeed.
- RateLimit.RateLimiter.ConsumeRateLimit: requests of one caller do not overlap, and the fail-open path for store errors is not modelled.
- CircuitBreaker.Breaker.Handle: requests do not overlap, so "one trial at a time" is not claimed for overlapping ones; store errors, which let a request through, are not modelled.
- QueueHandler.Worker.ProcessQueueBatch: an order message has the fields and types a keeper tick sends; what the handlers of other kinds do, beyond failing or not, is not modelled.
- BatchIndexer.IndexerService.PersistBatch: the pool, user and swap rows that v4 logs also write are not modelled.
- OrderTable.TpSlService.CreateOrder: the insert's other failures, which leave the table alone, are not modelled.
- OrderTable.TpSlService.ExecuteOrder: the executed amount and time, written and never read by these paths, are not columns of the model.
- SwapSplit.FindV4SwapAmount: the quoting service and the pool library are functions, so a quote does not change between probes.
- PoolCreation.ValidatePoolCreationForm: prices are digit strings without surrounding spaces, and address syntax is abstracted to its parsed result.
- Hub: the order of sends, the token list and the statistics; known tokens live in memory only and do not survive hibernation.
- Nonce object: an issue's two storage writes are one step.
- On-chain single execution is a matter of the contracts, which are not part of this model.
- The pool library's output amount and final tick are arbitrary inputs, and the price and liquidity it reports after the swap are left out; price impact, price guards, slippage and the other floating-point paths are not modelled, nor is the number overload of the fee.
- The amount formatter on text that is not an integer.
- Pool, transaction and user rows: replay does not converge for them, since a replayed Initialize resets liquidity and swaps are keyed by transaction.
- Logs without a block or index, which the decoder drops, and chain reorganisations, which neither indexer handles. Without a configured first block coverage starts at the first tick's head less 10000.
- One chain per deployment, so the chain column of the event, cursor and position keys is constant.
- The final SELECT of the reconciliation, which joins the pool's tick spacing.
- The keeper tick's ORDER BY: any selection of at most 50 pending rows may be enqueued.
- ABI decoding: a decoded log body is part of a log.
- RPC, HTTP, SQL, key-value, queue and relay transport, signing and gas estimation.
- The order-book object, auto-recentre, price refresh, trade archive, volume alerts and all React components.
