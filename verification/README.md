# DukaPay: verified models of the money kernel, the indexer and three protocols

A Dafny 4.11 model of the parts of DukaPay where a mistake costs money or loses
events, with proofs about all inputs, all interleavings and all runs.

| files | what they model |
|---|---|
| `Rounding`, `Digits`, `Decimal`, `SdkDecimal` | four-mode signed division; parsing and printing of decimal amounts, once in the backend and once in the SDK |
| `ProRata` | largest-remainder allocation |
| `Schedules`, `LoanDebt` | the two instalment schedules; what a borrower owes, in the SQL of the loan list and in the details endpoint |
| `Chain`, `Fetching`, `Worker`, `Checkpoints`, `DeadLetters`, `Sharding` | the components of the event indexer |
| `Pipeline`, `Delivery`, `Finality`, `CheckpointOrder`, `PageCap`, `Ordering`, `Serving` | the indexer as one state machine: fetchers, channel, workers, sink, disk, crashes |
| `Idempotency`, `Outcomes`, `Breaker` | the idempotency lock protocol, what it answers, and its circuit breaker |
| `PauseGuard` | the fail-closed pause guard |
| `Paging` | snapshot and keyset paging of contract events |
| `Remittance` | submission of a remittance by compare-and-set |

Code that updates variables or fields step by step is a `method` or a `class`
proved against functions of its inputs and old state; protocols are step
relations whose actions carry every outcome the environment may choose, and the
main results are invariants over all action sequences. Amounts are unbounded
integers of stroops, as `bigint` is; quotients are exact rationals.

## Where the code does less than its comments say

The lemmas named with each item hold its witness and, wherever a condition
decides it, the exact condition.

- **Directed rounding of negative text.** `toStroops` rounds the magnitude and
  then restores the sign, so `Floor` and `Ceil` act mirrored on negative amounts
  with more than seven decimals (`NegativeFloorRoundsUp`, `RoundedPerMode`).
- **Rounding twice.** `toWholeStroops` rounds to seven decimals and then to
  stroops. It is wrong exactly when the seven-decimal value is a midpoint and the
  correct answer is odd (`HalfPlusDust`, `ToWholeStroopsRounds`). This is also how
  the loan list and the details come to report different debts, under an exact
  condition on the exact debt and its seven-decimal form
  (`DisagreementWithoutTie`, `ReportedDebtAgrees`).
- **Debts under one stroop.** The details round a debt up to one stroop where the
  list compares it unrounded, so one says active and the other repaid, again under
  an exact condition (`DisagreementWithoutTie`, `StatusAgrees`).
- **Long terms fail the list.** The list query multiplies the term by 10000 in the
  width of an integer column, so a loan over 214749 ledgers or more, thirty days
  among them, fails the query for every page it is on (`TermLimit`,
  `ThirtyDayTermFails`, `ListFailsIff`). The details endpoint computes in `bigint`.
- **The SDK reads text that the backend rejects**, among it empty text and a minus
  sign after the point, which subtracts (`SdkAcceptsIff`,
  `SignedFractionSubtracts`, `SignedFractionWitness`, `NoTextIsZero`,
  `InnerMinusDropped`, `SecondPointIgnored`).
- **A dispute freezes the details only.** The list goes on accruing, so it reports
  more than the details by the interest since (`FrozenWitness`,
  `FrozenDebtDisagrees`, `FrozenStatusDisagrees`).
- **An approved rate of zero** means zero in the list and the default rate in the
  details (`ZeroRateWitness`, `ZeroRateDisagrees`).
- **Schedules can overshoot**: the last instalment may be negative
  (`LastPortionNegative`), exactly when the regular ones exceed the principal by
  more than half a cent, or by just that at an odd tie (`LastPortionNegativeIff`).
- **Both schedules can miss their own total due** by one cent: the preview at
  half-cent ties (`PreviewMissesTotal`, `PreviewAddsUp`), the other whenever its
  columns together leave over more than half a cent (`AmortizationMissesTotal`,
  `AmortizationAddsUp`).
- **The page cap loses events.** A round that stops at `4 * batch_size` events
  still advances to the safe tip. At-least-once delivery holds for everything
  else, from the ledger at which a contract was started (`AtLeastOnce`,
  `StartLedgerFixed`), and without exception while no range is larger
  (`AtLeastOnceUnderCap`). Wherever an idle fetcher with room in the channel and a
  free worker has a larger range ahead, whose first event above the cap was not
  emitted before, there is a failure-free continuation in which that event is lost
  for good (`CapLossFromScratch`, `CapLosesEvent`, `LostForever`).
- **File checkpoints can fall** when the reported tip falls back
  (`FallingTipLowersCheckpoint`). They do not while each fetch's safe tip is at
  least the checkpoint held (`CheckpointsNeverDecrease`), as with tips that never
  fall (`RisingTipsSuffice`). What decides is whether a batch is under way below
  the checkpoint on disk: without such a state nothing falls
  (`UnexposedNeverLowered`), and in it the checkpoint falls exactly when the job
  of that batch ends unfailed and its save is written (`StepLowersIff`). While the
  batch is queued and a worker is free, a run without failures gets there
  (`DoomedLowers`, `FetchBehindLowers`).
- **A failed sync duplicates a dead letter** when the same event is pushed again
  before a restart (`UnsyncedDuplicates`, `TwoPushesDuplicate`,
  `PushKeepsConsistent`).
- **A failed read looks like an empty cache.** `cacheService.get` answers null when
  Redis fails, so a request that has reserved the lock can run the handler a
  second time within 24 hours (`LostRereadRunsAgain`, `HandlerCanRunTwice`);
  without such a lost re-read it cannot (`AtMostOneCacheableRun`). For the same
  reason a Redis outage does not open the circuit breaker while requests come one
  at a time (`SequentialOutageStaysClosed`).
- **Cursors are cut to milliseconds** while `created_at` has microseconds, so a
  page boundary inside a transaction drops the rest of it (`SameTransactionLost`);
  paging is complete exactly when no boundary falls into such a gap
  (`SnapshotEnumerated`), which whole milliseconds guarantee
  (`MillisecondsSuffice`).
- **A fallback that awaited the cache** uses the state from before the await and
  can undo a pause set meanwhile, even one that is pending (`FallbackUndoesPause`,
  `StaleFallback`), until the next successful read (`PendingPauseReturns`).
- **A retried claim** can answer 409 although it changed the row, which then stays
  processing for good (`RetriedClaimStrandsRow`, `StrandedForever`,
  `RefusedChangesNothing`); and a row marked failed was submitted
  exactly when the error came after sending (`FailedAfterSending`,
  `FailsEitherWay`).

## Assumptions about the environment

- Finalised ledgers do not change. The final events of the pages of a round come
  in ledger order, and an empty page or a missing cursor means that none are left
  (`Fetching.Honest`). An append or a rename happens completely or not at all.
- `history` fields (`origin`, `skipped`, `Mark.batch`, `lost`, `claimer`, ...)
  record the past for the statements and steer nothing.
- The configured contract ids are distinct: one fetcher per list entry, as the
  source spawns them, is then one per contract.
- `LEDGER_CLOSE_SECONDS` is at most 10000, so that the product for the payment
  deadline overflows only where 10000 times the term does.
- The loans of a page are the rows for which Postgres evaluates the query's
  expressions; which further rows it evaluates is up to its planner.
- A handler and the store that follows it end before the 24-hour lock expires.
- Event rows are only inserted, with unique and increasing `seq`.
- Postgres keeps at least one decimal of a numeric quotient, ties away from zero.
- Each operation of the pause guard is one step, except in `StaleFallback` and
  `FallbackUndoesPause`.
- A fetch round that fails changes nothing and is not a step of the pipeline.

## Model

| member | source | states |
|---|---|---|
| `Rounding.RoundDivExact` | backend/src/money/decimal.ts:52-106 | for every nonzero denominator of either sign, the result is the one and only integer that meets the mode's definition by cross-multiplication |
| `Rounding.RoundDivMonotone` | backend/src/money/decimal.ts:65-105 | for a positive denominator a larger numerator never gives a smaller result, in all four modes |
| `Rounding.RoundDivOdd` | backend/src/money/decimal.ts:57-105 | negating the numerator negates the result under the mirrored mode (Floor and Ceil swap, the half modes stay) |
| `Rounding.RoundDivScale` | backend/src/money/decimal.ts:57-105 | multiplying numerator and positive denominator by the same positive factor changes nothing, in all four modes |
| `Rounding.RoundDivShift` | backend/src/money/decimal.ts:86-97 | half-even rounding commutes with adding whole units, unless an odd number of them meets a tie |
| `Rounding.TieIsEven` | backend/src/money/decimal.ts:92-95 | an exact tie rounds to an even integer |
| `ProRata.SplitProRata` | backend/src/money/decimal.ts:205-259 | every error case; otherwise the parts are the largest-remainder split, and the drift error is unreachable |
| `ProRata.AllocateFloors` | backend/src/money/decimal.ts:223-233 | each share is the floor of its exact quota with the remainder it leaves |
| `ProRata.HandOutLeftovers` | backend/src/money/decimal.ts:240-256 | the leftover units go to the largest remainders, ties to the lowest index; an unused index always exists and the loop ends |
| `ProRata.LeftoverRange` | backend/src/money/decimal.ts:235-238 | the leftover is non-negative and less than the number of weights |
| `ProRata.SplitNearQuota` | backend/src/money/decimal.ts:227-256 | each part is the floor of its quota or one more |
| `ProRata.SplitOptimal` | backend/src/money/decimal.ts:223-256 | no integer split with the same sum has a smaller total distance from the exact quotas |
| `ProRata.SplitUnique` | backend/src/money/decimal.ts:243-255 | the specification determines the split completely |
| `ProRata.BumpedIsShort` | backend/src/money/decimal.ts:243-255 | an extra unit only goes to an entry with a positive remainder |
| `ProRata.SplitFair` | backend/src/money/decimal.ts:227-256 | a zero weight gets zero, a larger weight never gets less, equal weights differ by at most one |
| `Decimal.MagnitudeExact` | backend/src/money/decimal.ts:129-138 | the padding branch and the excess-digit branch are the same rounding of the exact value times 10^7 |
| `Decimal.ToStroopsExact` | backend/src/money/decimal.ts:118-141 | an error exactly on malformed text; otherwise the rounding of the exact signed value, in the mirrored mode when negative |
| `Decimal.RoundedPerMode` | backend/src/money/decimal.ts:113-141 | rounding is per mode if and only if the mode is a half mode, the text has no minus sign, or the value is a whole number of stroops |
| `Decimal.NegativeFloorRoundsUp` | backend/src/money/decimal.ts:134-140 | witness: -0.00000001 under Floor is 0, not -1 |
| `Decimal.PrintedShape` | backend/src/money/decimal.ts:178-184 | what is printed is well-formed, with the right sign, whole part and seven decimals |
| `Decimal.StroopsRoundTrip` | backend/src/money/decimal.ts:172-184 | printing and parsing any integer gives it back, in every mode |
| `Decimal.TwiceRounded` | backend/src/money/decimal.ts:157-162 | rounding through a seven-decimal intermediate that crosses no midpoint is off by at most one, and exactly when the intermediate is a midpoint and the direct result is odd |
| `Decimal.ToWholeStroopsRounds` | backend/src/money/decimal.ts:157-162 | exact nearest-even up to seven decimals; the exact condition for being off beyond that |
| `Decimal.ToWholeStroopsError` | backend/src/money/decimal.ts:157-162 | the error is at most 1/2 + 1/(2 * 10^7) stroop on every well-formed text |
| `Decimal.ToWholeStroopsReads` | backend/src/money/decimal.ts:157-162 | text is read as the two-step rounding of the exact rational it denotes |
| `Decimal.OtherValuesRead` | backend/src/money/decimal.ts:157-162 | a missing value and empty text are zero, a bigint is itself |
| `Decimal.PaddingIgnored` | backend/src/money/decimal.ts:118-124 | white space around an amount does not matter |
| `Decimal.PatternIff` | backend/src/money/decimal.ts:118-124 | the accepted text is exactly an optional minus sign, digits, and optionally a point and digits |
| `Digits.TrimDrops` | backend/src/money/decimal.ts:118-124 | trimming removes exactly the white space around the text |
| `Digits.SpaceByCode` | backend/src/money/decimal.ts:118-124 | which characters are white space |
| `Decimal.HalfPlusDust` | backend/src/money/decimal.ts:157-162 | witness: 0.50000001 reads as 0 although 1 is nearer |
| `SdkDecimal.ParsesAmount` | sdk/src/contract.ts:26-32 | sign, whole part and first seven decimals of every well-formed amount are read as intended |
| `SdkDecimal.SdkTruncates` | sdk/src/contract.ts:26-32 | the parser truncates the exact value times 10^7 toward zero |
| `SdkDecimal.ParsersAgree` | sdk/src/contract.ts:26-32 | equal to the backend parser up to seven decimals, at most one stroop apart beyond, in every mode |
| `SdkDecimal.SdkAcceptsIff` | sdk/src/contract.ts:26-32 | the SDK accepts exactly the text whose two pieces around the first point, the first without a minus sign and the second cut or filled to seven characters, are each an optionally signed integer or blank |
| `SdkDecimal.SignedFractionSubtracts` | sdk/src/contract.ts:26-32 | a minus sign after the point is accepted and takes the fraction off the whole part, on text the backend rejects |
| `SdkDecimal.SignedFractionWitness` | sdk/src/contract.ts:26-32 | witness: 1.-5 is read as 9500000 stroops |
| `SdkDecimal.NoTextIsZero` | sdk/src/contract.ts:26-32 | witness: empty text is read as zero |
| `SdkDecimal.InnerMinusDropped` | sdk/src/contract.ts:26-32 | a minus sign inside the whole part is dropped without making the amount negative |
| `SdkDecimal.SecondPointIgnored` | sdk/src/contract.ts:26-32 | what follows a second point is not read |
| `SdkDecimal.IntegerReadsBack` | sdk/src/contract.ts:34-36 | the decimal form of every integer is read back by BigInt |
| `SdkDecimal.TrimZerosPads` | sdk/src/contract.ts:40 | trimming trailing zeros is undone by padding |
| `SdkDecimal.SdkRoundTrip` | sdk/src/contract.ts:26-42 | the zero-trimmed form of every integer reads back to its decimal form, and that to the integer, including amounts between -1 and 0 |
| `SdkDecimal.CrossRoundTrip` | sdk/src/contract.ts:26-32 | the SDK reads what the backend prints back to the decimal form of the integer, and that to the integer |
| `Schedules.BuildAmortizationSchedule` | backend/src/controllers/loanController.ts:294-356 | one row per period; every portion, total and clipped balance in closed form |
| `Schedules.BuildRepaymentPreviewSchedule` | backend/src/controllers/loanController.ts:380-447 | the same for three columns whose interest and fees were rounded first |
| `Schedules.ColumnStep` | backend/src/controllers/loanController.ts:323-335 | one pass of the loop over one column yields the closed-form portion and remainder |
| `Schedules.CentsError` | backend/src/money/decimal.ts:190-195 | rounding to cents is off by at most half a cent and half a stroop |
| `Schedules.ColumnTotal` | backend/src/controllers/loanController.ts:320-346 | all portions together are the first and what was left after it |
| `Schedules.PrincipalTotal` | backend/src/controllers/loanController.ts:320-355 | principal portions sum to the reported principal, off by one cent exactly at a half-cent tie with an odd regular portion |
| `Schedules.WholeCentsTotal` | backend/src/controllers/loanController.ts:410-435 | interest and fee portions of the preview sum exactly to their totals |
| `Schedules.UnroundedTotal` | backend/src/controllers/loanController.ts:300-346 | the portions of an amount that is not whole cents, as the interest of the first schedule is, miss its rounded total, by one cent, if and only if there are several, its whole stroops are a half-cent tie, and the regular portion is odd |
| `Schedules.LastPortionBound` | backend/src/controllers/loanController.ts:326-328 | the last principal portion is within (n+1)/2 cents of the others for n below 100000, and within n(1+1/100000)/2 + 1/2 for every n |
| `Schedules.LastPortionNegative` | backend/src/controllers/loanController.ts:326-334 | witness: six cents in ten instalments end with minus three cents |
| `Schedules.LastPortionNegativeIff` | backend/src/controllers/loanController.ts:323-334 | the last portion is negative if and only if the regular portions exceed the principal by more than half a cent, or by just that at an odd tie |
| `Schedules.EndsAtZero` | backend/src/controllers/loanController.ts:334-345 | the last row of both schedules has balance zero, for every principal, rate and term |
| `Schedules.BalanceIsUnpaid` | backend/src/controllers/loanController.ts:334-345 | the balance in each row of both schedules is the principal still to be paid in the rows after it, or zero where those take some back |
| `Schedules.PeriodCountRounds` | backend/src/controllers/loanController.ts:303-307 | the number of instalments is the term over 518400 ledgers, rounded to the nearest with halves up, and at least one |
| `Schedules.PreviewAddsUp` | backend/src/controllers/loanController.ts:387-447 | row totals miss the reported total due, by one cent, if and only if the principal is a half-cent tie and exactly one of two is odd: the regular principal portion of several, or interest plus fees; they miss principal + interest + fees if and only if it is a tie with such an odd portion |
| `Schedules.PreviewMissesTotal` | backend/src/controllers/loanController.ts:387-447 | witness: 1.5 cents with one cent of interest in one instalment make a row of three cents and a total due of two |
| `Schedules.AmortizationAddsUp` | backend/src/controllers/loanController.ts:294-356 | row totals of an approved loan's schedule are within one cent of its total due and within two of principal plus interest; at a rate that is not negative they miss the total due if and only if what the two columns leave over is more than half a cent, or just that with an odd sum |
| `Schedules.AmortizationMissesTotal` | backend/src/controllers/loanController.ts:294-356 | witness: 0.3 cents at 100 percent in one instalment make a row of nothing and a total due of one cent |
| `LoanDebt.ListFailsIff` | backend/src/controllers/loanController.ts:563-567 | the query for a page fails if and only if some loan on it has a term of zero or one for which 10000 * term overflows; otherwise there is one entry for each loan |
| `LoanDebt.TermLimit` | backend/src/controllers/loanController.ts:559-566 | with a default term that fits an integer, a loan can be listed if and only if its term is at least 1 and below 214749 ledgers; the exact limits for larger defaults |
| `LoanDebt.ThirtyDayTermFails` | backend/src/controllers/loanController.ts:566 | witness: a loan over 518400 ledgers fails every page it is on, while the details call it active |
| `LoanDebt.NumericKeepsSides` | backend/src/controllers/loanController.ts:563-572 | neither the numeric column nor reading it back carries a debt across a midpoint between stroops |
| `LoanDebt.ReportedDebtAgrees` | backend/src/controllers/loanController.ts:563-572 | for an approved, listable loan whose rate is not explicitly zero: list and details debts differ by at most one stroop, and if and only if the seven-decimal debt is a midpoint m + 1/2 that the exact debt exceeds with m even, falls short of with m odd, or meets with principal minus repaid odd; at an exact tie of the interest, exactly when principal minus repaid is odd |
| `LoanDebt.DisagreementWithoutTie` | backend/src/controllers/loanController.ts:755-758 | witness: a loan whose debts and statuses differ (one stroop and active in the details, none and repaid in the list) although the interest is not an exact tie |
| `LoanDebt.StatusAgrees` | backend/src/controllers/loanController.ts:577-583 | for the same loans: list-active implies details-active; the statuses differ if and only if the loan is not defaulted, the exact debt is above 1/2 (or exactly 1/2 with principal minus repaid odd), and it is more than half a unit of the column's last decimal below 1 |
| `LoanDebt.PendingAndDefaultedAgree` | backend/src/controllers/loanController.ts:753-777 | the list has an entry exactly for listable loans; then both endpoints call the same loans pending (not approved, or approved in a later ledger) and the same loans defaulted |
| `LoanDebt.ZeroRateDisagrees` | backend/src/controllers/loanController.ts:721-723 | a loan approved at a rate of zero, when listable, is reported without interest in the list and with the default interest in the details: the debts differ if and only if that interest does not round to zero, the statuses if and only if the loan is not defaulted and only that interest makes its debt positive |
| `LoanDebt.ZeroRateWitness` | backend/src/controllers/loanController.ts:721-723 | witness: a repaid loan at no interest is repaid in the list, and active with 12 percent owed in the details |
| `LoanDebt.InterestMonotone` | backend/src/controllers/loanController.ts:753-757 | accrued interest is never negative and never decreases as ledgers elapse |
| `LoanDebt.AccruedIs` | backend/src/controllers/loanController.ts:721-758 | what the details report, spelled out: interest on the ledgers from approval to the freeze, or to now, rounded half-even, and nothing while pending |
| `LoanDebt.FrozenStands` | backend/src/controllers/loanController.ts:742-747 | while a dispute is open nothing the details report changes as ledgers close |
| `LoanDebt.FreezeNeverRaises` | backend/src/controllers/loanController.ts:742-747 | a freeze at or before the current ledger never raises interest or debt |
| `LoanDebt.FrozenDebtDisagrees` | backend/src/controllers/loanController.ts:563-572 | for a frozen loan the list exceeds the details by exactly the rounded interest since the freeze plus the list's own misreading, so they disagree if and only if these do not cancel |
| `LoanDebt.FrozenStatusDisagrees` | backend/src/controllers/loanController.ts:577-583 | the exact condition for differing statuses of a frozen loan, over the running and the frozen debt |
| `LoanDebt.FrozenWitness` | backend/src/controllers/loanController.ts:742-747 | witness: frozen half way, the details accrue 600000 stroops where the list reports 1200000 |
| `Sharding.ExactlyOneOwner` | indexer/src/config.rs:154-163 | of all shard indices below the total exactly one owns a contract |
| `Sharding.ShardsPartition` | indexer/src/config.rs:166-172 | the owned lists partition the configured list, with multiplicities |
| `Sharding.HashIsPolynomial` | indexer/src/config.rs:159-161 | wrapping after every byte gives the bytes as a number in base 31, modulo 2^32 |
| `Sharding.SingleShardOwnsAll` | indexer/src/config.rs:155-158 | a single shard owns every contract |
| `Fetching.FetchRound` | indexer/src/pipeline.rs:141-189 | the nested paging loops compute the recursion over replies, with the cap and the advance to the safe tip |
| `Fetching.PagingDelivers` | indexer/src/pipeline.rs:148-189 | a round that succeeds collects a prefix of its range, all of it unless it stopped at the cap, and always ends at the safe tip |
| `Fetching.FinalKeeps` | indexer/src/pipeline.rs:168-173 | of a page exactly the events at or below the safe tip are kept, with multiplicity |
| `Fetching.FinalConcat` | indexer/src/pipeline.rs:168-173 | and in their order |
| `Fetching.CollectsOnlyFinal` | indexer/src/pipeline.rs:148-180 | whatever the RPC answers, a round collects no event above the safe tip |
| `DeadLetters.DeadLetterQueue.Open` | indexer/src/dead_letter.rs:28-47 | reading the file back line by line gives exactly its keys |
| `DeadLetters.DeadLetterQueue.Push` | indexer/src/dead_letter.rs:49-74 | file and set after every outcome of the write; a known key is never appended; which result the caller gets |
| `DeadLetters.PushKeepsConsistent` | indexer/src/dead_letter.rs:49-74 | a push keeps set and file in step if and only if it does not write a record and then report an error |
| `DeadLetters.TwoPushesDuplicate` | indexer/src/dead_letter.rs:49-74 | two pushes onto a consistent queue leave a key twice in the file if and only if they are for the same unrecorded key, the first was written but reported as failed, and the second is written |
| `DeadLetters.ReopenConsistent` | indexer/src/dead_letter.rs:31-41 | a restarted queue is consistent if and only if the file it reads has no duplicate |
| `DeadLetters.UnsyncedDuplicates` | indexer/src/dead_letter.rs:69-73 | witness: a failed sync followed by a retry records an event twice |
| `DeadLetters.QueueStaysConsistent` | indexer/src/dead_letter.rs:28-74 | over any sequence of pushes and restarts without a failed sync: each key once, and the set is the keys of the file |
| `DeadLetters.KeyIdentifies` | indexer/src/dead_letter.rs:77-79 | for contracts without a colon two events have the same key if and only if they are the same event of the same contract |
| `DeadLetters.ColonsCollide` | indexer/src/dead_letter.rs:77-79 | witness: with colons in the contract two records share a key |
| `DeadLetters.PushRecords` | indexer/src/dead_letter.rs:49-74 | a push only adds to the file, and one reported as recorded has its key there |
| `Checkpoints.FileCheckpointStore.constructor` | indexer/src/checkpoint.rs:27-38 | a start loads the file into the cache |
| `Checkpoints.FileCheckpointStore.LoadMark` | indexer/src/checkpoint.rs:46-53 | a load sees the cache, hence also a mark whose write failed |
| `Checkpoints.FileCheckpointStore.SaveMark` | indexer/src/checkpoint.rs:55-62 | the cache changes whatever becomes of the write; a write flushes the whole cache |
| `Checkpoints.FailedWriteIsFlushed` | indexer/src/checkpoint.rs:55-62 | a checkpoint left in the cache becomes durable with the next save of another contract |
| `Checkpoints.PostgresMonotone` | indexer/src/checkpoint.rs:110-126 | the Postgres store never lowers a checkpoint |
| `Checkpoints.SaveLeaves` | indexer/src/checkpoint.rs:55-126 | a save that was not written leaves the disk as it was; a written one leaves this checkpoint in the file, and the larger one in Postgres |
| `Worker.EmitWithRetries` | indexer/src/pipeline.rs:233-255 | succeeds exactly when some attempt is acknowledged; what the attempts leave in the sink |
| `Worker.ProcessBatch` | indexer/src/pipeline.rs:230-293 | sink, dead letters and checkpoint after one batch; a batch with an exhausted event never touches the checkpoint |
| `Worker.SuccessLogged` | indexer/src/pipeline.rs:237-245 | every acknowledged event is in the sink |
| `Worker.UnackedWritesDuplicate` | indexer/src/pipeline.rs:233-255 | n writes without acknowledgement before the acknowledged one leave n + 1 copies in the sink |
| `Worker.StepsMatchLoop` | indexer/src/pipeline.rs:232-276 | the single steps of the state machine compose to the loops of ProcessBatch |
| `Pipeline.StepKeepsInv` | indexer/src/pipeline.rs:119-295 | every step of every task, and a crash, keeps the coverage invariant of fetchers, channel, workers and store |
| `Delivery.AtLeastOnce` | indexer/src/pipeline.rs:109-293 | over every run with failures, crashes and restarts, each event from the start ledger of the contract (the safe tip of its last boot that found no checkpoint) up to its checkpoint, in the cache or on disk, was emitted or was left unfetched at the cap; the checkpoint is the end of a batch of the contract that a fetch of the run sent and that was emitted completely |
| `Delivery.StartLedgerFixed` | indexer/src/pipeline.rs:109-116 | once a contract has a durable checkpoint, its start ledger is the same in every continuation, whatever fails or restarts, and the checkpoint is never dropped |
| `Delivery.NothingSkipped` | indexer/src/pipeline.rs:174-179 | while no fetched range holds more than 4 * batch_size events, no run skips anything |
| `Delivery.AtLeastOnceUnderCap` | indexer/src/pipeline.rs:109-293 | with such ranges every event from the start ledger up to the checkpoint was emitted, without exception |
| `Pipeline.SkippedOnlyAtCap` | indexer/src/pipeline.rs:174-179 | an event becomes an exception only in a round over a range of more than 4 * batch_size events that collected at least that many, a proper prefix of the range, and left it out |
| `Delivery.Backpressure` | indexer/src/pipeline.rs:204-210 | from the start, and from any state with one batch per contract: no run ever has two batches of a contract in the channel or with workers |
| `Delivery.ChannelBounded` | indexer/src/pipeline.rs:41 | the channel never holds more batches than its capacity |
| `Finality.FetchIsFinal` | indexer/src/pipeline.rs:129-189 | every fetch at a tip ends exactly the finality depth below it (at ledger 0 before there is so much) and sends only events of its contract from its position up to there |
| `Finality.BootStartsAt` | indexer/src/pipeline.rs:109-116 | a boot starts right after the checkpoint, or without one exactly the finality depth below the tip |
| `Finality.EmittedIsFinal` | indexer/src/pipeline.rs:129-189 | over every run, each event in the sink is at least the finality depth below some tip its contract was fetched at |
| `Finality.CheckpointIsFinal` | indexer/src/pipeline.rs:129-189 | over every run, each checkpoint, cached or on disk, is exactly the finality depth below some tip its contract was fetched at |
| `Finality.StartIsFinal` | indexer/src/pipeline.rs:109-116 | the start ledger of a contract is exactly the finality depth below the tip of one of its boots |
| `CheckpointOrder.CheckpointsNeverDecrease` | indexer/src/pipeline.rs:119-210 | if no fetch of a contract has its safe tip below the checkpoint the store holds for that contract, none of its durable checkpoints decreases between any two points of a run, whatever other contracts do, crashes and failed saves included |
| `CheckpointOrder.PostgresNeverDecreases` | indexer/src/checkpoint.rs:110-126 | with the Postgres store no run ever lowers a checkpoint |
| `CheckpointOrder.RisingTipsSuffice` | indexer/src/pipeline.rs:119-140 | when the tips at which a contract is fetched never fall, none of its durable checkpoints decreases |
| `CheckpointOrder.StepLowersIff` | indexer/src/checkpoint.rs:55-62 | a step lowers a durable checkpoint if and only if the store is the file, the batch under way ends below the checkpoint on disk, and the step ends the job of that batch, nothing dead-lettered, with a save that is written |
| `CheckpointOrder.UnexposedNeverLowered` | indexer/src/checkpoint.rs:55-62 | no run lowers a durable checkpoint without passing through a state in which the batch under way ends below the checkpoint on disk |
| `CheckpointOrder.DoomedLowers` | indexer/src/checkpoint.rs:55-62 | from every such state with the batch still queued and a free worker, and from every state where a save ahead of it is about to make it so, serving the channel without any failure lowers the checkpoint |
| `CheckpointOrder.FetchBehindLowers` | indexer/src/pipeline.rs:187-207 | a fetch below the held checkpoint, while the disk is above it too or another contract's batch is queued or about to be saved, has a continuation without failure, crash or further fetch in which the durable checkpoint falls to its safe tip |
| `CheckpointOrder.FallingTipLowersCheckpoint` | indexer/src/checkpoint.rs:55-62 | witness run: a failed save, a flush by another contract and a lower tip take a checkpoint from 100 to 60 |
| `PageCap.OneByOneStopsAtCap` | indexer/src/pipeline.rs:174-179 | pages of one event each stop at the cap with the rest of the range unfetched |
| `PageCap.StepKeepsLost` | indexer/src/pipeline.rs:110-116 | no step, restart included, returns to an event that everything has moved past |
| `PageCap.LostForever` | indexer/src/pipeline.rs:187-207 | an event lost once is emitted in no continuation of the run |
| `PageCap.CapLosesEvent` | indexer/src/pipeline.rs:174-189 | after every past, if a fetcher at rest has more than 4 * batch_size final events ahead of it, with room in the channel and a free worker, the pipeline has a continuation without any failure after which the first event above the cap is lost |
| `PageCap.CapLossFromScratch` | indexer/src/pipeline.rs:174-189 | witness run from an empty disk: five events in one ledger, batch size one, no failure, and the fifth is lost |
| `Ordering.ExactlyOnceInOrder` | indexer/src/pipeline.rs:206-293 | without failures, crashes and capped rounds the events of a contract in the sink are at every point the chain's from its start ledger, in order and once each: up to the fetcher's position between rounds, and up to the batch plus a prefix of it in a round |
| `Ordering.DeadLettersConsistent` | indexer/src/pipeline.rs:257-276 | over every run of the whole pipeline without a failed sync the dead-letter file and set stay consistent |
| `Ordering.DeadLetterKept` | indexer/src/pipeline.rs:257-276 | an event whose append was written is in the dead-letter file after every continuation, crashes included, and the file only grows |
| `Idempotency.StepKeepsGuards` | backend/src/middleware/idempotency.ts:188-219 | a completed cacheable run stays guarded for 24 hours by the stored response or by its own lock |
| `Idempotency.EmptyMeansOver` | backend/src/middleware/idempotency.ts:142-153 | whoever holds the lock and finds no response comes after the 24 hours of every earlier cacheable run |
| `Idempotency.StepKeepsInv` | backend/src/middleware/idempotency.ts:94-221 | every step of every request keeps the protocol's invariant |
| `Idempotency.MutualExclusion` | backend/src/middleware/idempotency.ts:121-140 | in every interleaving two handlers never run at once |
| `Idempotency.AtMostOneCacheableRun` | backend/src/middleware/idempotency.ts:94-221 | of two cacheable runs the later starts 24 hours after the earlier's reservation, even when storing failed, unless its re-read was lost |
| `Idempotency.ReplayIsReal` | backend/src/middleware/idempotency.ts:105-153 | a replayed response is one that a cacheable handler run produced |
| `Idempotency.LostRereadRunsAgain` | backend/src/services/cacheService.ts:83-96 | from every state with a reservation and a stored response, one failed read leads to a second cacheable run, started at once and before the stored response expires |
| `Idempotency.HandlerCanRunTwice` | backend/src/middleware/idempotency.ts:101-153 | witness run from scratch with two cacheable runs, the second started less than 24 hours after the first was reserved |
| `Outcomes.OutcomeIff` | backend/src/middleware/idempotency.ts:94-221 | over every run, a request has ended in a given way if and only if some action ended it so: a conflict by a re-read that finds nothing or fails, unavailable by an open breaker or a throwing reservation, a replay by a successful read of a stored response or the release after one, executed by a throwing store or the release after the handler |
| `Outcomes.ConflictMeansTaken` | backend/src/middleware/idempotency.ts:121-140 | a conflict is answered only after the request had found another's lock alive and then no response |
| `Outcomes.ReplayAfterReserve` | backend/src/middleware/idempotency.ts:142-153 | a replay given at a release goes back to a successful re-read of that response |
| `Outcomes.StoredIsAnswered` | backend/src/middleware/idempotency.ts:105-153 | wherever a response is stored, a successful read at each of the three places leads to its replay |
| `Outcomes.ReplayFollows` | backend/src/middleware/idempotency.ts:142-153 | after the re-read under the lock nothing but the replay or the end of the process can follow |
| `Outcomes.StoredIsReplayed` | backend/src/middleware/idempotency.ts:105-119 | after an acknowledged store, whatever happens in the next 24 hours, a new request whose first read succeeds is answered by a replay, and of that response unless another was stored over it |
| `Outcomes.HandlerRanIff` | backend/src/middleware/idempotency.ts:155-219 | of the requests that were answered the handler ran for exactly those answered by it |
| `Outcomes.ReleaseFreesKey` | backend/src/middleware/idempotency.ts:155-219 | a run whose response is not cacheable, and a stored one, gives the key free again, with the response stored for 24 hours or nothing stored |
| `Breaker.IdempotencyCircuitBreaker.constructor` | backend/src/middleware/idempotency.ts:24-27 | starts closed |
| `Breaker.IdempotencyCircuitBreaker.IsOpen` | backend/src/middleware/idempotency.ts:29-39 | open exactly when the count reached the threshold and the last failure is recent, and asking changes nothing |
| `Breaker.IdempotencyCircuitBreaker.RecordSuccess` | backend/src/middleware/idempotency.ts:41-43 | clears the count and nothing else |
| `Breaker.IdempotencyCircuitBreaker.RecordFailure` | backend/src/middleware/idempotency.ts:45-48 | counts and remembers the time |
| `Breaker.OpenIff` | backend/src/middleware/idempotency.ts:29-48 | over any history: open exactly when the last `threshold` reports were failures and the last failure in it (time zero when there is none) is less than the timeout ago |
| `Breaker.SequentialOutageStaysClosed` | backend/src/middleware/idempotency.ts:101-103 | while every failure report comes right after a success report (a swallowed read error, then a failed write), a threshold of two or more is never reached |
| `PauseGuard.GuardModule.ApplyState` | backend/src/middleware/pauseGuard.ts:107-119 | the guard becomes the specified one: the new state, and the alert memory cleared by a database state, an alert for any other new source |
| `PauseGuard.GuardModule.RaiseFallbackAlert` | backend/src/middleware/pauseGuard.ts:125-143 | the guard becomes the specified one: an alert unless the source was already alerted |
| `PauseGuard.GuardModule.FallBackFromDatabase` | backend/src/middleware/pauseGuard.ts:187-222 | the guard becomes the specified one: cache, then memory, then closed, without letting the cache undo a pause known from a real source |
| `PauseGuard.GuardModule.SetPauseState` | backend/src/middleware/pauseGuard.ts:348-391 | the guard becomes the specified one, and the call reports whether the write succeeded; an unwritten pause is kept pending, an unwritten unpause changes nothing |
| `PauseGuard.GuardModule.UpdatePauseStateFromDatabase` | backend/src/middleware/pauseGuard.ts:228-277 | the guard becomes the specified one for every outcome of the read and of writing a pending pause; after a successful read it is paused if and only if the row says so or a pause was pending |
| `PauseGuard.PauseEndsIff` | backend/src/middleware/pauseGuard.ts:187-277 | one operation ends a real pause if and only if it writes "not paused", or reads "not paused" while no pause is pending |
| `PauseGuard.PauseHolds` | backend/src/middleware/pauseGuard.ts:288-311 | after any operations and failures that do not lift it, every mutating request is rejected |
| `PauseGuard.SetPauseTakesEffect` | backend/src/middleware/pauseGuard.ts:379-390 | setting a pause takes effect whether or not it was written, and is pending exactly when it was not |
| `PauseGuard.AssumedPauseYieldsToCache` | backend/src/middleware/pauseGuard.ts:193-207 | a pause that was only assumed yields to a cached "not paused" |
| `PauseGuard.StaleFallback` | backend/src/middleware/pauseGuard.ts:190-221 | for every run in which a fallback captures the state, other operations pause the guard, and the fallback then completes: the guard stays paused if and only if the mirror or the captured state says paused or neither says anything, and a pending pause stays pending |
| `PauseGuard.FallbackUndoesPause` | backend/src/middleware/pauseGuard.ts:187-221 | witness run: a pause that was set during the await and could not be written is pending but no longer enforced |
| `PauseGuard.PendingPauseReturns` | backend/src/middleware/pauseGuard.ts:228-277 | a pending pause is enforced from the next successful read of the database on |
| `PauseGuard.StepKeepsInv` | backend/src/middleware/pauseGuard.ts:107-143 | every operation keeps the invariant and alerts exactly when it moves to another fallback source |
| `PauseGuard.FromStartup` | backend/src/middleware/pauseGuard.ts:82-90 | over all runs of whole operations from startup a pending pause is enforced and a failed-closed guard is paused |
| `PauseGuard.ReadDecides` | backend/src/middleware/pauseGuard.ts:228-277 | for every guard, after a successful read: paused if and only if the row says so or a pause is pending, with reason, contracts, time and source of whichever it is |
| `PauseGuard.FailedReadDecides` | backend/src/middleware/pauseGuard.ts:187-222 | for every guard, after a failed read: paused if and only if the mirror says so, or the state from a real source says so, or there is neither; with what is then reported |
| `PauseGuard.SetDecides` | backend/src/middleware/pauseGuard.ts:348-391 | for every guard, the whole state after setting it, written or not |
| `PauseGuard.RejectedIff` | backend/src/middleware/pauseGuard.ts:288-311 | GET, HEAD and OPTIONS always pass; everything else passes exactly while not paused |
| `PauseGuard.LearnedPauseHolds` | backend/src/middleware/pauseGuard.ts:228-311 | whatever happened since startup, a refresh that reads "paused" has every mutating request rejected until the pause is lifted |
| `Paging.ParseLimit` | backend/src/utils/pagination.ts:377-386 | an absent or unusable limit is 50; any other is kept up to 100 |
| `Paging.SortSeek` | backend/src/controllers/indexerController.ts:267-285 | filtering by the keyset clause and sorting commute |
| `Paging.NextStartAfter` | backend/src/controllers/indexerController.ts:296-300 | a page never goes back, and begins right after its predecessor if and only if the next row passes the truncated cursor |
| `Paging.SnapshotStable` | backend/src/controllers/indexerController.ts:252-265 | rows inserted later do not change the snapshot |
| `Paging.MaxSeqAttained` | backend/src/controllers/indexerController.ts:254-258 | the pinned snapshot is the sequence number of some row and no row has a larger one |
| `Paging.FirstPage` | backend/src/controllers/indexerController.ts:252-315 | the first request pins the largest sequence number in the table, or zero, and returns the head of that snapshot |
| `Paging.LaterPage` | backend/src/controllers/indexerController.ts:260-315 | a later request against a grown table returns a page of the original snapshot |
| `Paging.FollowCursors` | backend/src/controllers/indexerController.ts:252-315 | a client that follows the cursors, while rows with larger sequence numbers are inserted, gets exactly the walk over the sorted snapshot, and the snapshot's total |
| `Paging.WalkExact` | backend/src/controllers/indexerController.ts:267-300 | the walk is the whole snapshot if and only if no page boundary falls into a gap |
| `Paging.WalkOrdered` | backend/src/controllers/indexerController.ts:283 | the walk is strictly descending in (created_at, seq), so no row comes twice |
| `Paging.SnapshotEnumerated` | backend/src/controllers/indexerController.ts:252-315 | every matching row exactly once, in order, as many as total_at_snapshot, if and only if there is no gap |
| `Paging.MillisecondsSuffice` | backend/src/utils/pagination.ts:251-258 | timestamps in whole milliseconds leave no gap |
| `Paging.SameTransactionLost` | backend/src/utils/pagination.ts:251-258 | witness family: rows of one transaction are lost after the first page |
| `Remittance.StepKeepsInv` | backend/src/controllers/remittanceController.ts:237-288 | every step keeps the invariant, and the status only moves from pending to processing to completed or failed |
| `Remittance.AtMostOneSubmission` | backend/src/controllers/remittanceController.ts:251-258 | in every interleaving at most one request reaches the network, the claimer; a completed row was submitted |
| `Remittance.RefusedChangesNothing` | backend/src/controllers/remittanceController.ts:237-253 | a refused request changed nothing; a request that lost its claim changed the row if and only if its own claim was applied before a retry |
| `Remittance.RetriedClaimStrandsRow` | backend/src/db/connection.ts:75-93 | wherever a claim can succeed, a lost acknowledgement turns it into a 409 with the row left processing |
| `Remittance.StrandedForever` | backend/src/controllers/remittanceController.ts:262-266 | a row whose claimer is done stays processing in every continuation |
| `Remittance.UnconfirmedStaysProcessing` | backend/src/controllers/remittanceController.ts:262-266 | an unconfirmed submission leaves the row processing, then and ever after |
| `Remittance.FailedAfterSending` | backend/src/controllers/remittanceController.ts:268-278 | over every run, a row marked failed was submitted if and only if the claimer's error came after sending |
| `Remittance.FailsEitherWay` | backend/src/controllers/remittanceController.ts:268-278 | wherever a request holds the claim, an error before sending and one after both leave the row failed |
| `Remittance.CheckDecides` | backend/src/controllers/remittanceController.ts:239-249 | the checks in order: not the sender, not pending, invalid transaction, otherwise validated; and they change nothing |
| `Remittance.OnlySenderSubmits` | backend/src/controllers/remittanceController.ts:239-258 | over every run, only a sender's request with a valid transaction claims the row or reaches the network, and a refusal is for the reason it gives |

## Left out

- `PauseGuard.FromStartup`: speaks of whole operations; across the await inside a fallback a pending pause can go unenforced, as `FallbackUndoesPause` shows.
- Binary floating point: `toFixed`, `Number` division and JavaScript numbers as input; amounts are exact rationals.
- `amountToStroops`, `stroopsToAmount`: conversions to and from JavaScript numbers.
- BigInt literals with a radix prefix, which the SDK parser would accept; the model reports them as errors.
- Due dates of the schedules: calendar arithmetic on an offset, independent of the amounts.
- Loans with several approval events, where the list takes maxima and the details take the last event.
- The Soroban contracts and the Rust money crate; `calculations.ts` (a float formula).
- 32-bit overflow of ledger numbers in the indexer.
- Corrupt checkpoint and dead-letter files, which atomic writes exclude.
- The TTL of the pause mirror, metrics, logging and the time a pause state was verified.
- SQL text assembly, base64 encoding of cursors, the remittance and dispute lists.
- Liveness: nothing here says that a fetcher, a worker or a handler eventually proceeds.
- RBAC, JWT, CSRF, rate limits, the Redis connection breaker, reconciliation, scores, the frontend: lookups, wrappers and I/O with one-branch claims.
