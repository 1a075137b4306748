# IGFXPRO core: a verified model

This project models the parts of the IGFXPRO brokerage platform whose correctness rests on
relations between several functions, constants or concurrent actors, and proves what they keep:

- the per-user execution queue: the distributed lock and admission counter in Redis (`RedisQueue`)
  and the in-memory promise chain (`MemoryQueue`);
- the fill transaction with its margin, fee, ledger and outbox rows (`MarginEngine`), a client's locked
  margin under every interleaving of orders, executions, releases and repairs (`MarginRuns`), and the
  outbox consumer that turns rows into audit records (`AuditOutbox`);
- the codecs: FIX 4.4 messages and their stream framing (`FixMessage`, `FixFramer`, over `Text` and
  `Decimal`), base32 by section 6 of RFC 4648 (`Base32`), one-time passwords by section 5.3 of RFC 4226
  (`Totp`) and their one-time acceptance by section 5.2 of RFC 6238 (`TwoFactor`);
- the incremental indicators against their plain definitions: sliding variance and Bollinger bands
  (`Bollinger`), `Ema`, `Rsi`, `Macd`, `Adx`, the regime classifier (`Regime`), correlation (`Pearson`,
  over `Vectors`) and drawdown (`Drawdown`);
- order slicing (`AlgoOrder`) and rate limiting (`RateLimiter`).

Objects that the source updates in place are classes whose methods are proved against a
specification function or an abstract state; protocols are state machines (`Event`, `Enabled`, `Apply`,
`Legal`, `Exec`) with theorems over every run, and the class methods are proved to perform exactly
the steps of those machines. Prices and money are real numbers. Environment choices (answers of
the store, cancellations, market data, the clock) are parameters or events and are not restricted.
`dafny verify dfyconfig.toml` checks everything.

## Results where the code and its documentation part ways

- **Queue lock.** Two of a user's tasks can run at once, with both cancel tokens false, if and only if
  commands and timers can be late by 7.5 s or more: `RedisQueue.MutualExclusionIff` gives the bound
  `2 * lag < LOCK_TTL - EXECUTION_TIMEOUT` exactly.
- **Depth counter.** It is exact in every crash-free run if and only if commands take no time
  (`RedisQueue.DepthExactIff`): INCR and EXPIRE are two commands, and a key that expires between them
  takes the counter to -1. After a worker crash the counter heals exactly when 60 s pass after the last
  EXPIRE, and every call, refused or not, sends another one (`RedisQueue.LeakPersists`); five crashed calls
  lock the user out until then (`RedisQueue.LockedOut`). The file's header says a crash
  leaks nothing.
- **Locked margin.** It is not in every run the sum of the positions' margin, the outstanding estimates and
  the residues. It is at every moment of a run if and only if each event passes a guard that its caller
  can check (`MarginRuns.RunExactIff`, and `MarginRuns.ExecutedExactIff` for a whole execution); in every
  run it lies between that sum and bounds for what got stuck and what was taken twice
  (`MarginRuns.RunBounded`). What breaks it, each with a run in which it happens:
  - a resting order whose transaction throws is rejected with its estimate still locked, and the execution
    path does not give it back (`MarginRuns.ThrowStrands`, guards in `MarginEngine.ThrownIff`); an error before
    the engine is called, a crash, and five failed attempts do the same (`MarginRuns.WalkAwayStrands`);
  - a release whose acknowledgement is lost is repeated, and the repetition takes margin that another
    resting order or the new position needs (`MarginRuns.RepeatTakesAnother`, `MarginRuns.RepeatTakesPosition`);
  - the five-minute repair (main.ts:1799-1812) gives stuck amounts back, but compares the wallet with open
    positions only, so it also frees the estimates of all orders that still rest
    (`MarginRuns.RepairHeals`, `MarginRuns.RepairTakesResting`), although
    trading-service/order.controller.ts:547-562 says a resting order is never without its margin.
- **Insufficient margin at fill time.** The comment at execution-service/execution.engine.ts:333-336
  says the release of a resting order's estimate is rolled back when the real margin is not
  available. The code returns instead of throwing, so the release is committed
  (`MarginEngine.InsufficientIff`, `MarginRuns.ShortfallFrees`).
- **Audit of a close before its fill.** compliance/audit.outbox.consumer.ts:209-214 says the fill never
  adds a second record. It does, exactly when the close is audited while the fill is not
  (`AuditOutbox.TwoRecordsIff`, `AuditOutbox.TwoRecordsHappen`), and that record stays open for good
  (`AuditOutbox.FillRecord`).
- **FIX framing.** The framer searches for `10=` anywhere, so a field whose tag ends in ten (110, 210)
  or whose value contains it cuts a message short; `FixMessage.StreamOfMessages` with
  `FixMessage.MarkedField` is the exact condition. The check sum adds UTF-16 code units instead of bytes; a
  message passes the standard's test if and only if the caller's values have as many of one as of the other
  modulo 256, which ASCII ensures and one accented letter breaks (`FixMessage.ConformsIff`,
  `FixMessage.NonAsciiChecksum`).
- **Rate limit.** The bound for a sliding minute is sharper than twice the limit: twice the limit minus
  one, and it is reached (`RateLimiter.SlidingBound`, `RateLimiter.SlidingBoundIsTight`).
- **Backtester RSI.** Entry `k` is the index after candle `k + 1`, so a reader at candle `k` looks one
  candle ahead (`Rsi.CalcRSI`, `Rsi.LookAhead`). The entry is the index at candle `k` exactly if the next
  candle moves by the proportion of the average gain and loss so far, or there was no loss and it does not
  fall (`Rsi.LookAheadIff`). Its MACD signal averages the lines from the first
  candle on, the streaming engine's from the moment the slow average is ready.
- **Portfolio drawdown.** The running peak is the worst start for a fall to a point if and only if that
  point is not below zero or only one positive value came before it (`Drawdown.WorstFromPeakIff`); where
  all points are so, the result is the worst of all pairs (`Drawdown.AllPairs`), and otherwise it can be far
  smaller (`Drawdown.NegativeCurve`). The amount in currency belongs to the worst percentage; it is the
  largest fall while the peak does not move, and need not be after that (`Drawdown.UsdOnOnePeak`,
  `Drawdown.UsdIsNotTheLargestFall`).
- **Iceberg orders.** A failing child is sent again without limit, and a visible quantity of zero or
  less never ends (`AlgoOrder.RunIceberg`). The `Math.min` guard of the TWAP and VWAP loops never
  changes a quantity when the total is positive (`AlgoOrder.RunSlices`).

## Model

| member | source | states |
|---|---|---|
| RedisQueue.MutualExclusion | execution-service/execution.queue.ts:42-72 | in every run at most one of a user's calls executes with its cancel token false, while twice the lag fits between lock TTL and timeout |
| RedisQueue.MutualExclusionIff | execution-service/execution.queue.ts:42-72 | that holds in all runs exactly for those lags; a concrete overlapping run otherwise |
| RedisQueue.DepthCounts | execution-service/execution.queue.ts:213-273 | with instantaneous commands the key counts the calls between INCR and DECR plus those lost to crashes, at most five are admitted, every call ends within 42 s, and the key outlives it |
| RedisQueue.DepthExactIff | execution-service/execution.queue.ts:226-227 | the counter equals the calls in flight in all crash-free runs if and only if the lag is zero |
| RedisQueue.DepthGoesNegative | execution-service/execution.queue.ts:226-227 | for every positive lag a crash-free run ends with nothing in flight and the counter at -1 |
| RedisQueue.LeakPersists | execution-service/execution.queue.ts:226-233 | in every run, at any lag, crashed calls stay counted, and the counter at least at their number, if and only if every moment comes less than 60 s after the EXPIRE before it |
| RedisQueue.LeakStep | execution-service/execution.queue.ts:226-233 | a step ends the leak exactly if the clock reaches the last EXPIRE plus 60 s, and then for all lost calls at once |
| RedisQueue.LockedOut | execution-service/execution.queue.ts:226-233 | with five crashed calls counted, every call that arrives in such a run is refused |
| RedisQueue.CrashLeaks | execution-service/execution.queue.ts:35-37 | with instantaneous commands every crash of a counted call leaves such a leak |
| RedisQueue.LockedOutFor | execution-service/execution.queue.ts:226-233 | for any length of time there is a run in which nothing is in flight and the counter stays full |
| RedisQueue.AcquireRedisLock | execution-service/execution.queue.ts:185-205 | the retry loop takes the lock at its first attempt that finds it free, and gives up only at the 27 s deadline, whatever the jitter |
| RedisQueue.BackOff | execution-service/execution.queue.ts:190-202 | the pause stays between 50 and 400 ms |
| RedisQueue.BackOffGrows | execution-service/execution.queue.ts:190-202 | it grows by half from 50 ms on and stays at 400 ms exactly from the sixth lost race on |
| RedisQueue.AttemptsSpread | execution-service/execution.queue.ts:200-202 | attempts are at least 50 ms apart until the deadline and never later than it |
| RedisQueue.AttemptWhenDue | execution-service/execution.queue.ts:194-202 | a call that wakes with its attempt due makes it: it has the lock if the key was free, gives up if its deadline has come, and otherwise pauses for its back-off with jitter; it sleeps on only while it is early |
| RedisQueue.AttemptsOnTime | execution-service/execution.queue.ts:185-205 | among all others, a call that wakes on time makes its attempts exactly when the retry loop by itself would, each lost one at a taken key |
| RedisQueue.AcquiredOnTime | execution-service/execution.queue.ts:185-205 | and it ends as that loop ends: with the lock at the first attempt that finds the key free, or at the 27 s deadline |
| RedisQueue.OthersDoAll | execution-service/execution.queue.ts:185-273 | what others do at an await can be any run of the protocol |
| RedisQueue.UserKeys.Enqueue | execution-service/execution.queue.ts:213-273 | one call from INCR to DECR, with other calls and the clock doing anything at its awaits: every wake does what is due then; it is refused exactly above five; let in, with the lock free and no rival for it, it answers with what becomes of its work and never times out waiting; it has no answer only if the schedule ends before its next attempt or the end of its work is due; once answered it is not counted and holds no lock |
| RedisQueue.UserKeys.Acquire | execution-service/execution.queue.ts:185-205 | the acquisition loop among others: every wake with an attempt due makes it; it ends with the lock, with a timeout, or before the next attempt is due if the schedule ends first; a free lock without rivals is taken |
| RedisQueue.UserKeys.RaceTimer | execution-service/execution.queue.ts:249-269 | work against timer: the outcome is the work's own exactly if it takes less than 15 s, and there is one unless the schedule ends before either is due |
| RedisQueue.UserKeys.Await | execution-service/execution.queue.ts:185-273 | nothing others do changes a waiting call or hands it the lock |
| RedisQueue.UserKeys.IncrDepth | execution-service/execution.queue.ts:226-226 | the answer is one more than before; without delay and crash it is the number of calls in flight |
| RedisQueue.UserKeys.SetDepthTtl | execution-service/execution.queue.ts:227-233 | the call is refused if it saw more than five, and at most five are let in |
| RedisQueue.UserKeys.SetLockNx | execution-service/execution.queue.ts:194-202 | success means that no other call holds the lock or runs |
| RedisQueue.UserKeys.RunTask | execution-service/execution.queue.ts:248-256 | work starts while no other work of the user runs uncancelled |
| RedisQueue.UserKeys.SettleTask | execution-service/execution.queue.ts:249-261 | work that settles still owns an unexpired lock |
| RedisQueue.UserKeys.CancelOnTimeout | execution-service/execution.queue.ts:252-267 | so does work that the timer cancels |
| RedisQueue.UserKeys.ReleaseLock | execution-service/execution.queue.ts:67-72 | compare-and-delete removes the call's own lock and never another holder's |
| RedisQueue.UserKeys.DecrDepth | execution-service/execution.queue.ts:271-271 | without delay the counter never falls below the number of calls left |
| RedisQueue.UserKeys.PassTime | execution-service/execution.queue.ts:42-48 | without delay the depth key never expires under a call in flight |
| MemoryQueue.SerialisedPerUser | execution-service/execution.queue.ts:112-174 | in every run a user's tasks start in enqueue order, each after all earlier ones finished or were cancelled |
| MemoryQueue.EntriesMatchTasks | execution-service/execution.queue.ts:116-146 | depth is the number of unfinished tasks, at most five; the chain entry exists exactly while one is unfinished and names the newest |
| MemoryQueue.NoLostWakeup | execution-service/execution.queue.ts:125-131 | the oldest waiting task may start whenever all earlier ones are resolved |
| MemoryQueue.AdmittedIff | execution-service/execution.queue.ts:112-121 | in every run a call is let in exactly while its user has fewer than five unfinished tasks |
| MemoryQueue.InvStep | execution-service/execution.queue.ts:116-160 | every step keeps the queue's invariant |
| MemoryQueue.InMemoryQueue.Admit | execution-service/execution.queue.ts:116-130 | admission performs the machine's step and refuses exactly at five |
| MemoryQueue.InMemoryQueue.Begin | execution-service/execution.queue.ts:131-139 | a start, allowed only when the chain has resolved |
| MemoryQueue.InMemoryQueue.CancelOnTimeout | execution-service/execution.queue.ts:153-160 | the timeout resolves the slot while the work goes on |
| MemoryQueue.InMemoryQueue.Finish | execution-service/execution.queue.ts:140-146 | the `finally` block counts down and drops entries exactly when nothing is left |
| MarginRuns.RunExactIff | execution-service/execution.engine.ts:81-133 | locked margin is at every moment of a run the positions' margin plus outstanding estimates plus residues of at most 0.01 each, if and only if every event of the run is harmless |
| MarginRuns.RunBounded | execution-service/execution.engine.ts:81-133 | in every run it is at most that plus what is stuck, and falls short of it by no more than repeated releases and repairs took |
| MarginRuns.RunSound | execution-service/execution.engine.ts:310-613 | in every run the margin entries explain the locked amount and the commissions the balance; each fill has its position and outbox row; an order's progress is the sum of its fills |
| MarginRuns.StepExactIff | execution-service/execution.engine.ts:329-613 | from exact books each kind of event leads to exact books if and only if its guard holds |
| MarginRuns.StepBounded | execution-service/execution.engine.ts:329-613 | each kind of event keeps the bound, with what it may overdraw |
| MarginRuns.StepSound | execution-service/execution.engine.ts:329-613 | each kind of event keeps ledger and records |
| MarginRuns.ExecutedExactIff | execution-service/execution.engine.ts:153-613 | a whole execution leaves the books exact if and only if its guards and release attempts say so |
| MarginRuns.TrimmedExactIff | execution-service/execution.engine.ts:600-613 | after a partial fill they are exact if and only if the unused margin was released once or was a cent or less |
| MarginRuns.StuckIff | execution-service/execution.engine.ts:541-590 | an execution leaves its estimate locked and opens nothing exactly if no attempt took effect after an early rejection, or the guards make the transaction throw |
| MarginRuns.ExecutedIsRun | execution-service/execution.engine.ts:153-613 | an uninterrupted execution is a run of those events |
| MarginRuns.TransactMoney | execution-service/execution.engine.ts:348-437 | a transaction that commits moves locked margin exactly as it moves what is needed |
| MarginRuns.RepairHeals | settlement/reconciliation.engine.ts:322-355 | a repair leaves at most a cent beyond the positions' margin, and exact books when no amount is set aside |
| MarginRuns.ThrowStrands | execution-service/execution.engine.ts:541-590 | for every estimate a run in which a throw leaves it locked for nothing |
| MarginRuns.WalkAwayStrands | trading-service/order.controller.ts:282-318 | for every estimate a run in which an error or crash between two transactions does |
| MarginRuns.ShortfallFrees | execution-service/execution.engine.ts:348-360 | for every estimate a run in which it is released although the order is not filled |
| MarginRuns.RepeatTakesAnother | execution-service/execution.engine.ts:81-111 | for every estimate a run in which a repeated release takes another order's |
| MarginRuns.RepeatTakesPosition | execution-service/execution.engine.ts:607-613 | a run in which it takes the margin of the position just opened |
| MarginRuns.RepairTakesResting | settlement/reconciliation.engine.ts:322-355 | for every estimate above a cent a run in which the repair frees it under a resting order |
| MarginEngine.ThrownIff | execution-service/execution.engine.ts:329-540 | the transaction throws, and changes nothing, exactly under guards on wallet, limits, fee and store |
| MarginEngine.CommittedIff | execution-service/execution.engine.ts:348-437 | a leg is committed exactly when nothing breaks, cancels or forbids it, equity covers the real margin with the estimate freed, and the balance covers the fee |
| MarginEngine.InsufficientIff | execution-service/execution.engine.ts:348-360 | it commits without a position exactly when equity falls short, and then only that the estimate is no longer locked |
| MarginEngine.CommittedEffect | execution-service/execution.engine.ts:348-540 | a commit moves exactly the margin difference and the fee, with one commission entry, and adds one matching position, fill and outbox row; the order is filled exactly when its legs reach its quantity |
| MarginEngine.FillTxSound | execution-service/execution.engine.ts:329-540 | a commit keeps ledger and records |
| MarginEngine.ReleasedOnceIff | execution-service/execution.engine.ts:81-111 | retrying gives the amount back once if and only if one attempt took effect or nothing else was locked |
| MarginEngine.RetriedDrains | execution-service/execution.engine.ts:81-111 | the locked amount after any series of attempts |
| MarginEngine.EffectiveRange | execution-service/execution.engine.ts:310-320 | a partial fill's margin lies between zero and the full requirement; times the leverage, each is the price of the quantity it is for |
| MarginEngine.ReleaseExplained | risk-service/margin.controller.ts:209-268 | a release is written to the ledger as far as the clamp allows and changes nothing else |
| MarginEngine.LockExplained | risk-service/margin.controller.ts:94-165 | a lock and its ledger entry move together |
| MarginEngine.BookRecorded | trading-service/order.lifecycle.ts:311-349 | booking a leg keeps positions, fills, outbox rows and order progress in step |
| MarginEngine.ExecutionEngine.ReleaseMargin | risk-service/margin.controller.ts:209-268 | one release in its own transaction, acknowledged or not |
| MarginEngine.ExecutionEngine.ReleaseMarginWithRetry | execution-service/execution.engine.ts:81-111 | at most five attempts until one is acknowledged |
| MarginEngine.ExecutionEngine.FillTransaction | execution-service/execution.engine.ts:329-540 | a throw at any point leaves the whole store as it was; otherwise the specified commit |
| MarginEngine.Verdict | execution-service/execution.engine.ts:153-540 | the reason of a refusal is that of the first check that fails, from kill switch to fee, each stated over the request, the market and the wallet; if none fails the order is filled |
| MarginEngine.ExecutionEngine.Execute | execution-service/execution.engine.ts:153-690 | a position is opened if and only if there is no kill switch, the account is eligible, the feed live, no requote, the LP answers, no fill-or-kill fills partly, nothing cancels, equity covers the margin, the limits hold, and the balance covers the fee; a refusal has the reason of the first check that fails, opens nothing and ends the order as rejected; an opened position has its margin, fill and outbox row |
| AuditOutbox.EveryRun | compliance/audit.outbox.consumer.ts:85-281 | in every run a row is flagged exactly when its audit committed, no row has two records, nothing unaudited is pruned, and each audited close has one log entry |
| AuditOutbox.StepKeeps | main.ts:1591-1613 | every step, the cleaner's included, keeps the invariant behind that |
| AuditOutbox.TwoRecordsIff | compliance/audit.outbox.consumer.ts:205-243 | a position whose fill and close are audited has one record, or two if and only if the close came first |
| AuditOutbox.TwoRecordsHappen | compliance/audit.outbox.consumer.ts:205-243 | a run in which that happens |
| AuditOutbox.RecordsOf | compliance/audit.outbox.consumer.ts:130-243 | the number of a position's records at every moment |
| AuditOutbox.FillRecord | compliance/audit.outbox.consumer.ts:170-207 | a fill's record is closed out exactly if the close was audited later |
| AuditOutbox.CloseRecord | compliance/audit.outbox.consumer.ts:212-237 | a close writes a record of its own exactly if it was audited while its fill was not; that record is of its position and closed, for good |
| AuditOutbox.RecordsInRun | compliance/audit.outbox.consumer.ts:130-243 | in every run both records of a position are there, open or closed, exactly as the order of the two audits says |
| AuditOutbox.EntriesOfClose | compliance/audit.outbox.consumer.ts:245-276 | one log entry per audited close |
| AuditOutbox.CountBySource | compliance/audit.outbox.consumer.ts:170-180 | records have different source rows, all of them audited |
| AuditOutbox.OldestFirst | compliance/audit.outbox.consumer.ts:89-93 | a poll that leaves a row for later has taken 200 rows, none created after it |
| AuditOutbox.PendingRows | compliance/audit.outbox.consumer.ts:89-93 | a poll finds exactly the unaudited rows, in the order they were written |
| AuditOutbox.NewRowKeeps | execution-service/execution.engine.ts:525-541 | a new outbox row of a fill or a close starts unaudited |
| AuditOutbox.AuditStore.ProcessFill | compliance/audit.outbox.consumer.ts:130-182 | record and flag in one transaction; a repeated call for the row changes neither |
| AuditOutbox.AuditStore.ProcessClose | compliance/audit.outbox.consumer.ts:184-281 | close out or write a closed record, log, and flag in one transaction; no record of the position is open afterwards |
| AuditOutbox.AuditStore.ProcessOne | compliance/audit.outbox.consumer.ts:95-120 | one row of a batch with its retry counter |
| AuditOutbox.AuditStore.ProcessPending | compliance/audit.outbox.consumer.ts:85-128 | the batch loop: the audit of each row in order, and every row counted as processed or failed |
| AuditOutbox.AuditStore.MarkPublished | realtime-infra/outbox.service.ts:58-70 | the delivery flag is set by exactly one caller |
| AuditOutbox.AuditStore.EnqueueAndPush | main.ts:1304-1324 | pushing an event that has its row never makes a second one and never touches the audit |
| AuditOutbox.AuditStore.CleanUp | main.ts:1599-1613 | the cleaner deletes exactly the rows that are delivered, audited, notified and older than two hours |
| FixFramer.ChunkInvariance | fix-gateway/fix.acceptor.ts:217-235 | two ways of cutting one stream give the same messages and the same left-over, wherever the cuts fall |
| FixFramer.SplitAgain | fix-gateway/fix.acceptor.ts:217-235 | splitting what arrived and later the left-over with more is splitting it all |
| FixFramer.SplitKeepsStream | fix-gateway/fix.acceptor.ts:217-235 | messages and left-over are the stream, and the left-over holds no complete message |
| FixFramer.SplitIntoRaw | fix-gateway/fix.acceptor.ts:225-234 | every message ends at the first delimiter after its first marker |
| FixFramer.SplitMessages | fix-gateway/fix.acceptor.ts:217-235 | a series of texts comes back as it went in if and only if each is one such message |
| FixFramer.FixSession.OnData | fix-gateway/fix.acceptor.ts:217-235 | the buffer loop hands out exactly the split of left-over and chunk |
| FixFramer.Receive | fix-gateway/fix.acceptor.ts:217-235 | a session fed in chunks performs that for the whole series |
| FixMessage.RoundTrip | fix-gateway/fix.message.ts:69-117 | parsing a printed message gives the header, the caller's fields, replaced tag by tag, and the check sum |
| FixMessage.HeaderReturned | fix-gateway/fix.message.ts:69-117 | a parser finds FIX.4.4 at tag 8, the length at 9, and type, sender, target, sequence number and time at 35, 49, 56, 34 and 52, each unless the caller's fields hold that tag |
| FixMessage.MessageSpelled | fix-gateway/fix.message.ts:84-117 | the whole text, spelled out in its fixed printing order |
| FixMessage.BodyReturned | fix-gateway/fix.message.ts:69-117 | every field of the caller comes back unless it claims tag 10 |
| FixMessage.ValueSurvivesIff | fix-gateway/fix.message.ts:69-117 | a value comes back whole if and only if it holds no delimiter |
| FixMessage.RenderParsed | fix-gateway/fix.message.ts:69-81 | parsing inverts printing for any list of delimiter-free fields |
| FixMessage.TagParsed | fix-gateway/fix.message.ts:72-79 | a printed tag is read back by the lenient integer parser |
| FixMessage.LenientTag | fix-gateway/fix.message.ts:76-78 | the parser of tags reads blanks, a sign and digits, ignores what follows, and finds no number only without digits |
| FixMessage.Printed | fix-gateway/fix.message.ts:104-116 | a message passes the standard's length and check-sum test if and only if its code units and bytes agree modulo 256, which ASCII ensures |
| FixMessage.BytesCounted | fix-gateway/fix.message.ts:105-105 | the length counts exactly the bytes that stand for a character by section 3 of RFC 3629, whose sum the standard checks |
| FixMessage.UnitsCounted | fix-gateway/fix.message.ts:111-113 | the check sum adds exactly its 16-bit units, surrogate pairs included |
| FixMessage.ConformsIff | fix-gateway/fix.message.ts:104-116 | that is decided by the values the caller chose: their code units and bytes must agree modulo 256 |
| FixMessage.NonAsciiChecksum | fix-gateway/fix.message.ts:111-114 | every otherwise plain message with one accented letter fails the test |
| FixMessage.MessageIsRawIff | fix-gateway/fix.message.ts:84-117 | a printed message is one raw message exactly if no field shows the marker |
| FixMessage.MarkedField | fix-gateway/fix.acceptor.ts:223-227 | a field shows it exactly if its tag ends in ten or its value contains it |
| FixMessage.StreamOfMessages | fix-gateway/fix.acceptor.ts:217-235 | a stream of printed messages splits into them if and only if no field shows the marker |
| FixMessage.ReportReturned | fix-gateway/fix.message.ts:139-171 | a counterparty finds each value of an execution report at its tag |
| FixMessage.ParseMessage | fix-gateway/fix.message.ts:69-81 | the parsing loop computes the fold the lemmas speak about |
| FixMessage.BuildMessage | fix-gateway/fix.message.ts:84-117 | the printing loops, length and check sum included, produce that text |
| FixMessage.BuildExecutionReport | fix-gateway/fix.message.ts:139-171 | parsing the report that is sent finds every value at its tag, its type, both parties, its sequence number and its time |
| Base32.RoundTrip | auth-service/2fa.service.ts:23-52 | decoding an encoding gives the bytes back, for every byte sequence |
| Base32.Encode | auth-service/2fa.service.ts:23-37 | with 32-bit wrap-around the loop writes the digits of the unbounded bit stream, ceil(8n/5) of them |
| Base32.Decode | auth-service/2fa.service.ts:39-52 | the loop reads whole bytes off the bit stream of the symbols it knows |
| Base32.SymbolMeans | auth-service/2fa.service.ts:21-21 | digits are the letters in order, then the figures from two on |
| Base32.ShiftInBits | auth-service/2fa.service.ts:28-28 | shifting into a 32-bit signed word appends bits to the pending ones |
| Base32.FieldBits | auth-service/2fa.service.ts:30-33 | the unsigned shift and mask read the oldest pending bits |
| Base32.LastDigit | auth-service/2fa.service.ts:35-35 | the final symbol is the pending bits filled up with zeros |
| Base32.DigitsStream | auth-service/2fa.service.ts:23-37 | the only digits that stand for the bytes with less than a digit of filling are the encoding's, and their number |
| Base32.NoiseIgnored | auth-service/2fa.service.ts:44-46 | characters other than letters and the figures from two to seven change nothing, wherever they stand |
| Base32.CaseIgnored | auth-service/2fa.service.ts:40-40 | texts that differ only in the case of letters decode to the same bytes |
| Base32.StrippingIsRedundant | auth-service/2fa.service.ts:40-40 | stripping padding signs makes no difference |
| Totp.Hotp | auth-service/2fa.service.ts:54-71 | the buffer writes and shifts compute the code of section 5.3 of RFC 4226 |
| Totp.WriteUInt32BE | auth-service/2fa.service.ts:59-60 | four big-endian bytes at their place and no others |
| Totp.CodeShape | auth-service/2fa.service.ts:70-70 | every code is six digits that read as the truncated MAC modulo a million |
| Totp.MessagesDiffer | auth-service/2fa.service.ts:56-60 | different counters make different MAC inputs |
| Totp.SplitWords | auth-service/2fa.service.ts:56-60 | the two 32-bit words are the counter's eight bytes |
| Totp.DropTopBit | auth-service/2fa.service.ts:64-68 | the masked shifts are the 31-bit big-endian number |
| Totp.TruncatedBytes | auth-service/2fa.service.ts:62-68 | the low four bits of the last byte of the MAC choose four bytes, the code's number is those less their top bit, and nothing else of the MAC matters |
| Totp.TruncationExample | auth-service/2fa.service.ts:62-68 | the example of section 5.4 of RFC 4226 |
| TwoFactor.AcceptedOnce | auth-service/2fa.service.ts:192-241 | in every run of concurrent calls with stale reads accepted counters strictly increase, no backup code is accepted twice, the stored codes are the initial ones without the accepted, and each acceptance was right when checked |
| TwoFactor.UpdateKeepsInv | auth-service/2fa.service.ts:208-239 | each settling call keeps that |
| TwoFactor.MatchMeans | auth-service/2fa.service.ts:114-123 | a match lies within one step and is a counter whose code was typed; no match means none of the three |
| TwoFactor.MatchCounter | auth-service/2fa.service.ts:114-123 | the window loop returns the lowest match |
| TwoFactor.MatchIff | auth-service/2fa.service.ts:114-123 | a counter is the match if and only if it is the lowest of the three whose code was typed, and there is none if and only if no code of the three was |
| TwoFactor.BlanksIgnored | auth-service/2fa.service.ts:114-116 | blanks in a token change nothing, wherever they stand, and every other character counts |
| TwoFactor.FreshCodeAccepted | auth-service/2fa.service.ts:208-218 | a correct code is accepted if the last accepted counter lies before the window |
| TwoFactor.CounterAcceptedIff | auth-service/2fa.service.ts:208-218 | a call whose token matches is accepted by counter if and only if its lowest match is newer than the last counter accepted, which it then is |
| TwoFactor.CodeAcceptedIff | auth-service/2fa.service.ts:220-235 | a call that matches no counter is accepted by code if and only if the blank-free upper-case token is in the row it read and in the row it settles on; afterwards that code, and no other, is gone |
| TwoFactor.KeepMembers | auth-service/2fa.service.ts:223-228 | removal takes out exactly the used codes |
| TwoFactor.Setting.ClaimCounter | auth-service/2fa.service.ts:209-217 | the conditional update claims exactly the newer counters |
| TwoFactor.Setting.ConsumeCode | auth-service/2fa.service.ts:222-229 | the conditional removal succeeds exactly while the code is stored |
| TwoFactor.Setting.Settle | auth-service/2fa.service.ts:206-241 | the answer is by counter, by backup code or a refusal exactly under those conditions, and the row changes accordingly |
| Bollinger.SlidingVariance.Push | indicator-engine/bollinger.engine.ts:25-47 | the ring holds the last `period` values with their exact mean and sum of squared deviations, and the clamp never fires |
| Bollinger.SlidingVariance.Variance | indicator-engine/bollinger.engine.ts:51-54 | the reported variance is the sample variance of the window |
| Bollinger.VarianceOfPairs | indicator-engine/bollinger.engine.ts:51-54 | the sample variance is half the mean squared difference of two different values of the window |
| Bollinger.PushAll | indicator-engine/bollinger.engine.ts:25-47 | after any sequence of pushes the window is the last min(n, period) values |
| Bollinger.WarmUp | indicator-engine/bollinger.engine.ts:26-31 | the Welford step keeps mean and deviation exact |
| Bollinger.Slide | indicator-engine/bollinger.engine.ts:40-45 | the eviction step keeps them exact and never goes below zero |
| Bollinger.MeanUnique | indicator-engine/bollinger.engine.ts:49-49 | the maintained mean is the arithmetic mean |
| Bollinger.DeviationAtMean | indicator-engine/bollinger.engine.ts:51-54 | the maintained sum is the sum of squares less n times the squared mean |
| Bollinger.ComputeBands | indicator-engine/bollinger.engine.ts:75-82 | bands at `multiplier` sample deviations around the mean, percentB placing the price between them |
| Bollinger.BollingerEngine.Next | indicator-engine/bollinger.engine.ts:71-91 | those bands once the window is full, nothing before |
| Ema.EMAEngine.Next | indicator-engine/ema.engine.ts:12-20 | the streamed average is the plain recursion over all prices |
| Ema.Compute | indicator-engine/ema.engine.ts:38-41 | the batch form is the streamed one at every position |
| Ema.CalcEMA | ai-core/ai.router.ts:24-32 | the backtester's loop gives the same series |
| Ema.EmaIsWeighted | indicator-engine/ema.engine.ts:12-20 | the average is the sum of all prices with geometrically falling weights, the first price keeping the weight it started with |
| Ema.EmaWithinPrices | indicator-engine/ema.engine.ts:12-20 | the average never leaves the range of the prices |
| Ema.SmoothingAge | indicator-engine/ema.engine.ts:8-8 | with this factor the average age of the prices, by weight, is that of a plain mean over `period` prices |
| Ema.RisingAverages | indicator-engine/ema.engine.ts:12-20 | while every price beats all before it, the faster of two averages is ahead and both are behind the price |
| Ema.EmaMirrored | indicator-engine/ema.engine.ts:12-20 | prices upside down have the average upside down |
| Rsi.RSIEngine.Next | indicator-engine/rsi.engine.ts:19-52 | the streamed index is the Wilder index of all prices, after the warm-up |
| Rsi.CalcRSI | ai-core/ai.router.ts:34-47 | entry k, for k from the period on, is the streamed index after values[0..k+1]; 50 before |
| Rsi.RsiRange | indicator-engine/rsi.engine.ts:47-47 | the index lies in [0, 100] |
| Rsi.RsiIsShare | indicator-engine/rsi.engine.ts:47-47 | the index is the share of the average gain in the average movement, in percent |
| Rsi.WilderIsEma | indicator-engine/rsi.engine.ts:36-45 | the seed and the smoothing are an exponential average with factor 1/period started from the plain mean |
| Rsi.RsiMirrored | indicator-engine/rsi.engine.ts:27-47 | a series turned upside down has the index 100 minus the original, or both 100 without movement |
| Rsi.LookAheadIff | ai-core/ai.router.ts:38-46 | entry k is the index at candle k exactly if candle k + 1 moves by the proportion of the averages, or there was no loss and it does not fall |
| Rsi.LookAhead | ai-core/ai.router.ts:38-46 | after every series a rise and a fall of the next candle give different entries for the last one |
| Rsi.IndexEqualIff | indicator-engine/rsi.engine.ts:47-47 | two indices are equal exactly if gains and losses are in the same proportion, or both have no loss |
| Macd.MACDEngine.Next | indicator-engine/macd.engine.ts:30-70 | after warm-up the signal is the average of every line since the slow average became ready; the histogram is line less signal; a bullish cross is exactly a histogram above zero after one at zero or below, a bearish one the reverse; the bias is the sign of the histogram |
| Macd.MACDEngine.WarmUp | indicator-engine/macd.engine.ts:42-44 | the queued lines are fed in order |
| Macd.RisingLine | indicator-engine/macd.engine.ts:36-36 | the line is above zero wherever every price so far beat all before it |
| Macd.CalcMACD | ai-core/ai.router.ts:49-56 | the backtester's lines are the streamed ones, its signal averages them from the first candle on |
| Adx.SumsBounded | ai-core/regime.engine.ts:96-121 | for candles closing between low and high, 0 <= +DM + -DM <= TR through seeding and smoothing |
| Adx.SumsNonNegative | ai-core/regime.engine.ts:96-121 | for every candle series the three sums stay at zero or above |
| Adx.DiSum | ai-core/regime.engine.ts:125-126 | then +DI + -DI is at most 100 |
| Adx.TrueRangeSpans | ai-core/regime.engine.ts:97-101 | a candle's true range spans the candle and the close before it |
| Adx.OneDirection | ai-core/regime.engine.ts:102-105 | only the larger of the two moves out of the previous candle counts, whole, and neither of two equal ones |
| Adx.DxOfSums | ai-core/regime.engine.ts:124-127 | the ranges cancel: DX is the difference of the directional sums in percent of their total |
| Adx.SumsAreAverages | ai-core/regime.engine.ts:107-116 | after seeding each smoothed sum is the period times the Wilder average of its own moves |
| Adx.AdxRange | ai-core/regime.engine.ts:127-138 | every ADX lies in [0, 100], whatever the candles |
| Adx.AdxStep | ai-core/regime.engine.ts:129-132 | each new DX takes the place of the one `period` before it in the mean that is the ADX |
| Adx.AdxMirrored | ai-core/regime.engine.ts:89-139 | turning the market upside down leaves the ADX as it is |
| Adx.SumsMirrored | ai-core/regime.engine.ts:96-121 | and exchanges the two directional sums |
| Adx.RisingSums | ai-core/regime.engine.ts:101-128 | in a pure up-trend -DM is zero, +DM positive and DX 100 |
| Adx.RisingAdx | ai-core/regime.engine.ts:101-138 | and the ADX is 100 |
| Adx.RisingTrend | ai-core/regime.engine.ts:89-157 | there and in the mirror image ADX and peak are 100 and the slope is zero |
| Adx.SlopeIsLeastSquares | ai-core/regime.engine.ts:141-153 | no line fits the recent values better than one with this slope, and every other slope fits worse |
| Adx.SpreadPositive | ai-core/regime.engine.ts:151-152 | the slope's denominator guard never fires |
| Adx.ADXEngine.Next | ai-core/regime.engine.ts:89-139 | windows, sums and result are those of all candles fed, and the result is at most the peak |
| Adx.ADXEngine.Slope | ai-core/regime.engine.ts:141-153 | the slope of the last six values |
| Adx.ADXEngine.Peak | ai-core/regime.engine.ts:155-157 | the highest of the last six values, at least the current one |
| Regime.RecoveryIff | ai-core/regime.engine.ts:244-254 | in every run a candle is labelled a recovery exactly when no news overrides it, the ADX re-bases below 45, and one of the 40 labels before was a panic |
| Regime.LabelIff | ai-core/regime.engine.ts:228-321 | in every run a candle has a label exactly when the label's own condition holds and none of higher priority does |
| Regime.PanicIff | ai-core/regime.engine.ts:239-247 | a panic is labelled exactly at an ADX of 35 or more that falls by one or more a candle under an expanding normalised range above 1.5, with no news |
| Regime.TrendLabels | ai-core/regime.engine.ts:206-321 | in a pure up-trend every candle is labelled a bullish trend, in its mirror image risk-off; only news and, upwards, a volatility shock say otherwise |
| Regime.CooldownMeans | ai-core/regime.engine.ts:346-349 | the counter is the age of the last panic, read backwards |
| Regime.LabelAt | ai-core/regime.engine.ts:206-349 | each label depends on the candles so far and the labels before |
| Regime.RegimeEngine.Read | ai-core/regime.engine.ts:206-217 | the three indicators are fed and read once the slow average is ready |
| Regime.RegimeEngine.Next | ai-core/regime.engine.ts:206-349 | the engine's answer is the run's label, its counter and history those of the run |
| Vectors.CauchySchwarz | ai-core/ai.router.ts:85-88 | for series of any length xy * xy <= xx * yy |
| Vectors.LeastSquares | ai-core/regime.engine.ts:147-152 | the quotient of the two sums is the slope with the smallest squared residuals |
| Vectors.TightIffProportional | ai-core/ai.router.ts:85-91 | equality holds exactly for proportional series |
| Pearson.PearsonCorr | ai-core/ai.router.ts:79-92 | the loop's result is the unclamped coefficient of the last entries, in [-1, 1]; zero below five samples |
| Pearson.OlderEntriesIgnored | ai-core/ai.router.ts:79-82 | entries before the last ones that count change nothing, on either side |
| Pearson.Products | ai-core/ai.router.ts:83-89 | the loop builds the three sums of centred products |
| Pearson.ClampedRatio | ai-core/ai.router.ts:90-91 | the clamp changes no quotient within [-1, 1] |
| Pearson.CoefficientInRange | ai-core/ai.router.ts:90-91 | the coefficient is within it, so the clamp never acts |
| Pearson.CorrelationSymmetric | ai-core/ai.router.ts:79-92 | swapping the series changes nothing |
| Pearson.UnitIffProportional | ai-core/ai.router.ts:90-91 | plus or minus one means exactly that the centred series are proportional |
| Drawdown.BacktestDrawdown | ai-core/ai.router.ts:238-246 | the one-pass loop finds the largest fall between any two equities, the starting zero included |
| Drawdown.ComputeMaxDrawdown | analytics/portfolio.analytics.ts:87-100 | the largest fall from the running peak in percent, with the amount of the first point that reaches it; zero for fewer than two points |
| Drawdown.PercentOff | analytics/portfolio.analytics.ts:94-95 | a fall is in percent of its high: taking it off the high leaves the low |
| Drawdown.WorstFromPeakIff | analytics/portfolio.analytics.ts:93-97 | no pair that ends at a point is worse than the running peak's exactly if the point is not below zero or only one positive value came before |
| Drawdown.AllPairs | analytics/portfolio.analytics.ts:87-100 | where all points are so, the result is the worst of all pairs |
| Drawdown.NegativeCurve | analytics/portfolio.analytics.ts:93-97 | every curve that rises between two positive values and then falls below zero has a worse pair |
| Drawdown.UsdOnOnePeak | analytics/portfolio.analytics.ts:97-97 | while the peak stays where it started the amount is the largest fall |
| Drawdown.UsdIsNotTheLargestFall | analytics/portfolio.analytics.ts:97-97 | a later fall from a higher peak, smaller in percent but larger in currency, is not reported |
| AlgoOrder.RunSlices | execution-service/algo.order.service.ts:226-273 | with any failures and a cancel anywhere: children follow the plan, the last takes all that is left, and if it fills the order is complete |
| AlgoOrder.RunSlice | execution-service/algo.order.service.ts:234-244 | one round: the planned quantity, except for the last |
| AlgoOrder.RunTwap | execution-service/algo.order.service.ts:226-247 | equal slices that add up to the total |
| AlgoOrder.RunVwap | execution-service/algo.order.service.ts:251-273 | shares of the volume curve that add up to the total |
| AlgoOrder.RunIceberg | execution-service/algo.order.service.ts:277-293 | every child shows the visible quantity or what is left; a finished order is filled, in the least possible number of fills |
| AlgoOrder.IcebergCeiling | execution-service/algo.order.service.ts:277-293 | if every child fills, the children are total / visible rounded up |
| AlgoOrder.RunBracket | execution-service/algo.order.service.ts:297-310 | one child of the whole quantity |
| AlgoOrder.GetVolumeWeights | execution-service/algo.order.service.ts:108-130 | positive shares of the chosen curve that add up to one, for a single uniform slice too |
| AlgoOrder.SharesMirror | execution-service/algo.order.service.ts:118-123 | the morning curve backwards is the afternoon curve |
| AlgoOrder.WeightsMirror | execution-service/algo.order.service.ts:114-123 | and the U-shape is symmetric |
| AlgoOrder.ShareShapes | execution-service/algo.order.service.ts:110-130 | of two slices the morning curve gives more to the earlier, the afternoon curve to the later, the U-shape to the one nearer to its end of the day, and the uniform profile the same |
| AlgoOrder.UShapeEnds | execution-service/algo.order.service.ts:114-115 | first and last slice of a U-shape weigh three times what one at midday would |
| AlgoOrder.AlgoEntry.ExecuteChild | execution-service/algo.order.service.ts:320-367 | filled + remaining stays the total, filled is the sum of filled children, average times filled the money spent |
| AlgoOrder.AlgoEntry.RecordChildFill | execution-service/algo.order.service.ts:369-391 | a fill adds its quantity and keeps those sums |
| AlgoOrder.AlgoEntry.RecordChildFailure | execution-service/algo.order.service.ts:393-408 | a failure changes no quantity |
| AlgoOrder.AlgoEntry.MaybeComplete | execution-service/algo.order.service.ts:411-429 | completion exactly when all slices are sent and none is pending; completed if and only if something filled |
| AlgoOrder.AlgoEntry.FinishSlicing | execution-service/algo.order.service.ts:315-318 | the end of slicing decides between completed and failed |
| AlgoOrder.AlgoEntry.Cancel | execution-service/algo.order.service.ts:199-212 | cancelling sticks, keeps the fills, and is refused once the order is over |
| AlgoOrder.AverageStep | execution-service/algo.order.service.ts:384-386 | the running average keeps average times quantity equal to the money spent |
| RateLimiter.WindowQuota | gateway/rate-limiter.ts:33-39 | each window admits exactly the smaller of its requests and the limit |
| RateLimiter.WindowsApart | gateway/rate-limiter.ts:33-39 | two checks share a window or their windows opened a minute apart or more |
| RateLimiter.SlidingBound | gateway/rate-limiter.ts:33-73 | any half-open minute admits at most twice the limit minus one |
| RateLimiter.SlidingBoundIsTight | gateway/rate-limiter.ts:33-73 | for every limit a run reaches that |
| RateLimiter.LimitRange | gateway/rate-limiter.ts:5-19 | an endpoint's override only tightens, and at least five are admitted; exactly signing in has five, registering has ten and refreshing twenty, or ten for unauthenticated clients |
| RateLimiter.KeysEqualIff | gateway/rate-limiter.ts:55-55 | two checks share a counter exactly if tier, client and endpoint agree, or the text between two colons ends one's identifier and starts the other's endpoint |
| RateLimiter.ClientsApart | shared/http.ts:293-294 | so two of the gateway's clients, known by address, never share one, nor do two paths of one client |
| RateLimiter.Limiter.Increment | gateway/rate-limiter.ts:33-39 | the script counts a live key up or opens a window with its expiry |
| RateLimiter.Limiter.Check | gateway/rate-limiter.ts:44-84 | the reply's admission, remaining count and retry time match the key's history; without an answer the request is refused |

## Left out

- Stores, sockets, timers, HTTP and messaging: only their effects as atomic steps. HMAC-SHA1, the exponential and the square root are parameters; UUIDs are fresh numbers.
- Floating-point rounding, `toFixed` and `Math.round`: arithmetic is exact.
- RedisQueue: Redis commands that fail, the fallback from Redis to memory in `UserExecutionQueue`, and the metrics.
- MarginEngine: closing positions and realised profit; several clients at once (each client's wallet row is locked per transaction); failures of `rejectOrder` itself; exposure, concentration and requote rules, which are only pass or fail.
- MarginRuns: the steps of order status, which change no money; an amount in hand may be released or dropped at any time, which is more than the code does.
- MarginEngine: a store error during the lock inside the transaction counts as a throw; the controller turns it into a refusal, but the store has then rolled back all the same.
- AuditOutbox: two consumers at once, which leader election excludes; payload fields other than position and status; alerting after ten retries; the notification consumer, whose flag is set by an event.
- FixFramer: the session around the framer (logon, heartbeat, sequence numbers, connection counts).
- FixMessage: lone surrogates, which are not characters here, and tags beyond exact floating-point integers.
- Base32: upper-casing of letters outside ASCII.
- TwoFactor: enabling and disabling, which replace the row; blanks outside ASCII; the first half minute of 1970, where the window would start below zero; generating backup codes.
- Bollinger: the backtester's own bands, which use the population deviation; relating the two would be one line.
- Regime: the confidence figures, the transition matrix and the Bollinger inputs, which change no label.
- Adx: the reliability figure and `ready`.
- AlgoOrder: order placement itself, and events to listeners. A slice count of one with a curved profile divides zero by zero in the source, whose weight no loop reads then.
- AlgoOrder.RunIceberg: runs over a given number of rounds, because the source's loop has no end of its own when children keep failing.
- RateLimiter: response headers. Times to live are whole seconds off by less than one; a counter is gone from the instant its minute is over.
- RedisQueue.UserKeys.Enqueue: the caller's own process does not die inside the method; its death at any point is an event of the protocol, in all theorems about runs.
- RateLimiter.Limiter.Check: the clock of the store never runs backwards.
- Autopilot gating, execution intelligence, spread and slippage tables, compliance rules, KYC, document storage, sessions and the other analytics: branch tables and unconditional writes.
