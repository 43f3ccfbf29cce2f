# OpenGSN relay and client: a verified model

This project models the parts of the OpenGSN relay server and client in which several activities meet in one state,
and proves what they promise. `dafny verify dfyconfig.toml` verifies the whole project.

- **The transaction pipeline.** `NoncePipeline` is a state machine: any number of `sendTransaction` calls under the
  nonce mutex, any number of `pollNonce` calls outside it, one block worker (mined-marking, pruning, boosting) and the
  chain take steps in any order. Every `await` ends a step, and every remote call may fail. `NonceSafety` proves its
  invariant; `PipelineGuarantees`, `BoostRounds` and `ResendSpacing` state what follows for whole runs.
  `SentRequests` says that what is stored is what was asked for, `RoundRows` what a boost round leaves of every row.
  `SpacingLimits` says exactly when a round breaks the spacing of resends, and `SwallowedFailure`, `FeeDrops` and
  `ReplacedAttempt` give runs in which the code does what one would not expect. `TxStore` and `TransactionManager` are
  the code itself, as classes; `CallPaths` shows that each of its calls is a path of the machine (`Paths`). `GasFees`
  is the fee arithmetic.
- **The nonce gap.** `NonceGap` has the client's validator and the server's answer, and the exact conditions under
  which they agree; `NonceLimits` puts them together, and says what the check of a request's greatest nonce is worth.
- **Relay selection.** `WaitForSuccess` is the race of promises, `RelaySelection` the races of pings, `RelayClient` the
  retry loop around them, `KnownRelays` the tiers they start from, and `RepeatedRelay` the question whether one relay
  can be returned twice. A race's outcome is an input of the selection; that every resolved race has such an outcome
  is a lemma.
- **Paged log queries** (`PagedLogs`), **paymaster reputation** (`Reputation`, and `ReputationRaces` for calls that
  overlap), **guards against repeated actions** (`ActionGuards`, `Registration`), **delayed reveals**
  (`DelayedReveals`, and `OverlappingReveals` for handlers that overlap), **delayed withdrawals**
  (`DelayedWithdrawals`, and `ScannedEvents` for the events that rounds find), the **relay URL codec**
  (`RelayUrlCodec`), **fee agreement** (`FeeAgreement`) and **balances** (`Balances`, `TopUpRace`).

Numbers the source keeps as JavaScript numbers are unbounded integers, and configured factors are ratios of naturals.
`Math.round` is rounding half-up. An address is an abstract value, equal when `isSameAddress` says so. A transaction
hash is the signed content itself. Randomness, the clock, and what the chain, the network and the pinged relays answer
are parameters; a statement holds for every value of them.

## Assumptions of the pipeline

- The server is the only user of its keys, and the chain does not reorganise: the mined count never falls, and a
  transaction counts as pending only if it did when the run began or has been handed to the network since.
- The pending count never falls below its value at the start of the run, so transactions inherited from an earlier
  process are not evicted. `PipelineGuarantees.FirstPollDecides` shows what the first poll does otherwise.
- The run starts from a store that agrees with the chain (`NoncePipeline.ConsistentWithChain`). Reading and writing the
  store does not fail, except for the unique index, which is modelled.

## Where the code and what is said about it differ

- A boost sets both fees of a later pending transaction when only one of them is too low, and so may lower the other:
  the maximum or the priority fee (`FeeDrops`). Only the oldest pending transaction's fees never drop.
- Receipts are looked up by a transaction's last hash only. When one is mined under the hash of an earlier attempt, its
  row stays pending for good, is never pruned, and blocks the guard of its action (`ReplacedAttempt`).
- The spacing of resends fails when a rebroadcast throws before its row is written and a later row of the same signer is
  written in the same round: the error is only logged, the row stays due, and the rows after it are sent again with
  every block (`SwallowedFailure`; `SpacingLimits` for the exact condition).
- `relayEventParts` is not cleared when a paged query splits again, so events can be returned twice
  (`PagedLogs.EventsCanBeReturnedTwice`).
- A ban of a paymaster lasts `abuseTimeWindowBlocks`; the documented `abuseBlacklistDurationBlocks` is not used. The
  call that lifts a ban still answers by the old reputation. A flag raised at block 0 counts as none. Paymasters at, not
  only below, `blockReputation` are blocked.
- `waitForSuccess` may run `complete` again, and then picks a winner afresh: by its timer, or by the `finally` of any
  promise while all are settled. The winner of a resolved race is final only when every promise is settled and no such
  handler is left to run, or there is no other result (`WaitForSuccess.WinnerIsFinalIff`).
- `selectNextRelay` is documented never to return the same relay twice. It never returns a URL twice; a relay known
  under two URLs, a preferred one and the registered one, can be returned under both (`RepeatedRelay`).
- The guarded actions are spaced only if transactions are kept for more blocks than the guard looks back
  (`ActionGuards.SpacingHoldsIffKeptLongEnough`). The default configuration does; nothing enforces it.
- The penalizer's interval timer does not wait for the handler it started last. When a handler selects what another
  has selected and not yet taken, a penalization is revealed twice, and the index of -1 makes the last scheduled one
  vanish without being revealed (`OverlappingReveals`).
- A round asks for events up to the latest block but counts as scanned only its own block, and none when it throws; the
  delayed events it has queued and the due ones it has taken off stay queued and off. So one event can be withdrawn
  for twice, even when no round fails, and due withdrawals can be lost (`ScannedEvents`).
- `validateMaxNonce` polls the nonce before the send takes it, and requests that overtake it push it up. The answer to
  an accepted request can so exceed the greatest nonce the client allows (`NonceLimits.CheckedNonceIsKeptIff`).
- Writes to the reputation store put back all fields as found, without a mutex. A call that has found the entry before
  can undo a ban or a reset (`ReputationRaces`).
- `replenishServer` runs in the worker's round and after every relayed request. When two such calls both ask the guard
  before either stores its top-up, the worker is topped up twice (`TopUpRace`).
- A worker whose missing amount equals exactly the manager's surplus over its minimum is never topped up.

## Model

| member | source | states |
|---|---|---|
| PipelineGuarantees.NoncesAreConsecutive | lib/gsn/packages/relay/src/TransactionManager.ts:163-233 | In every state of every interleaving no insert was refused by the unique index, the nonces handed out to a signer are consecutive from its pending count at the start, and once memory is synchronised the chain's pending count never exceeds it |
| PipelineGuarantees.SynchronisedFromFirstPoll | lib/gsn/packages/relay/src/TransactionManager.ts:331-338 | Memory is synchronised from the first poll of a signer on, inside or outside the mutex, for the rest of the run |
| PipelineGuarantees.StoreHasNoGap | lib/gsn/packages/relay/src/TransactionManager.ts:385-408 | In every reachable state the nonces stored for a signer from the mined count on are exactly those below its next one, so the "missing nonce" error of boosting never occurs, whatever broadcasts fail |
| PipelineGuarantees.FirstPollDecides | lib/gsn/packages/relay/src/TransactionManager.ts:331-338 | After a restart the first polled count keeps the store without collision and without hole if and only if it is the next stored nonce; a smaller count collides, a greater one leaves a hole |
| PipelineGuarantees.RowsKeepTheirOrigin | lib/gsn/packages/relay/src/TransactionManager.ts:235-303 | Between any two states of a run a stored transaction keeps target, gas, data, value, sender, action and creation block, and its attempts grow by exactly the number of times it was resent |
| PipelineGuarantees.WorkKeepsKeys | lib/gsn/packages/relay/src/TransactionManager.ts:347-379 | Mined-marking and boosting never change the set of stored (signer, nonce) keys, at any intermediate point |
| PipelineGuarantees.PrunedForGood | lib/gsn/packages/relay/src/TransactionManager.ts:340-345 | Once a row has gone from the store no later state of the run has it again: its nonce is not handed out anew |
| PipelineGuarantees.NextNonceNeverFallsInRun | lib/gsn/packages/relay/src/TransactionManager.ts:331-338 | The nonce a signer's next transaction will take never falls in the course of a run |
| NonceSafety.InsertNeverCollides | lib/gsn/packages/relay/src/TxStoreManager.ts:46-52 | In every state that satisfies the invariant, a send about to insert finds its key free |
| NonceSafety.InitEstablishesInv | lib/gsn/packages/relay/src/TransactionManager.ts:331-338 | A store that agrees with the chain, with empty memory, satisfies the invariant |
| NonceSafety.NextKeepsInv | lib/gsn/packages/relay/src/TransactionManager.ts:163-446 | Every step of senders, unguarded polls, chain and worker keeps the invariant on memory, mutex, store and the worker's snapshot |
| NonceSafety.RangeIsConsecutive | lib/gsn/packages/relay/src/TransactionManager.ts:393-408 | The rows a boost round loads are numbered consecutively from the mined count, each nonce once |
| BoostRounds.CompletedRoundRaisesFees | lib/gsn/packages/relay/src/TransactionManager.ts:410-440 | After a completed boost round, whatever ran meanwhile, every transaction that was pending at its start has both fees at least the resolved pair; if the oldest was valid and the factor is at least one, its fees have not dropped and no later one is cheaper in either fee (for a legacy server: none that records one price) |
| BoostRounds.RunKeepsFeesInv | lib/gsn/packages/relay/src/TransactionManager.ts:427-444 | At every intermediate point of a round the rows dealt with so far have reached the new fees and the others are still those of the snapshot |
| FeeDrops.AttemptLowersMaxIff | lib/gsn/packages/relay/src/TransactionManager.ts:429-431 | Resending a row lowers its maximum fee if and only if only its priority fee was below the new pair |
| FeeDrops.AttemptLowersPriorityIff | lib/gsn/packages/relay/src/TransactionManager.ts:429-431 | Resending a fee-market row lowers its priority fee if and only if only its maximum fee was below the new pair |
| FeeDrops.LaterFeesCanDrop | lib/gsn/packages/relay/src/TransactionManager.ts:427-433 | A run from a consistent start whose one boost round lowers the maximum fee of one later transaction and the priority fee of another |
| ResendSpacing.ResendsAreSpaced | lib/gsn/packages/relay/src/TransactionManager.ts:410-440 | Two resends of the same transaction are at least the timeout apart in every run, from whatever stamps an earlier process has left, in which no row of its signer was written after another was skipped in the same round, although only the oldest row is checked |
| ResendSpacing.UnevenExactly | lib/gsn/packages/relay/src/TransactionManager.ts:435-439 | The history variable of that hypothesis is set for a signer exactly if some round has written a row of it after skipping one |
| ResendSpacing.ResendIsSpacedIff | lib/gsn/packages/relay/src/TransactionManager.ts:240-256 | In any reachable state a resend leaves its signer's resends spaced if and only if the row's stamp is at least the timeout ago, or it was not resent in the run |
| SpacingLimits.NextRoundBreaksSpacingIff | lib/gsn/packages/relay/src/TransactionManager.ts:410-440 | From any reachable state with an idle worker, a round that learns the network fees, whatever else fails in it, breaks the spacing if and only if the oldest row is due while a row it writes was resent less than the timeout ago: oldest + timeout <= time < other + timeout |
| SpacingLimits.SomeRoundBreaksSpacingIff | lib/gsn/packages/relay/src/TransactionManager.ts:410-415 | In any reachable state with an idle worker and spaced resends, some next round breaks the spacing if and only if a pending row that can be resent was resent in the run after the oldest row was last sent, less than the timeout before the worker's time |
| SpacingLimits.WrittenExactly | lib/gsn/packages/relay/src/TransactionManager.ts:427-444 | A round writes a row if and only if its check passes and no boost before it failed |
| ResendSpacing.NextKeepsSpacing | lib/gsn/packages/relay/src/TransactionManager.ts:240-256 | Every step keeps each signer's resends in order of nonce and spaced, except for signers of which a row was written after a skip |
| SwallowedFailure.SpacingFailsWithSwallowedFailure | lib/gsn/packages/relay/src/TransactionManager.ts:435-439 | A concrete run from a consistent start in which a swallowed failure makes a transaction be resent one second after its last resend |
| TransactionManager.TransactionManager.PollNonce | lib/gsn/packages/relay/src/TransactionManager.ts:331-338 | Returns and remembers the greater of memory and the chain's pending count, for this signer only |
| TransactionManager.TransactionManager.SendTransaction | lib/gsn/packages/relay/src/TransactionManager.ts:163-233 | Stores exactly one row under the polled nonce, with the request's call, action, block and signer and its fees (its maximum as both on a legacy chain), and advances the nonce, whether or not the broadcast succeeds; a refused send changes no row; every error case |
| SentRequests.SendersCarryRequests | lib/gsn/packages/relay/src/TransactionManager.ts:163-233 | In every state of every run the transaction a sender is about to store, broadcast or answer for carries the call, action, block, signer and fees of the request it submitted last |
| SentRequests.RowsWereAskedFor | lib/gsn/packages/relay/src/TransactionManager.ts:187-225 | Every row that appears in a run has call, action, creation block and signer of a request submitted in it, however often it was resent |
| TransactionManager.TransactionManager.ResolveNewGasPrice | lib/gsn/packages/relay/src/TransactionManager.ts:305-329 | Each new fee is the integer nearest to the old one times the factor, raised to its minimum and cut at the cap (the priority fee at the new maximum); the pair is valid for all inputs; the flag for reaching the cap |
| TransactionManager.TransactionManager.ResendTransaction | lib/gsn/packages/relay/src/TransactionManager.ts:258-303 | Rewrites just its own row as the next attempt before broadcasting: the new fees, one more attempt, the boost's block; a failed check writes nothing, and when each fails |
| TransactionManager.TransactionManager.ResendAll | lib/gsn/packages/relay/src/TransactionManager.ts:427-444 | The loop ends in the protocol state of all its turns: it stops at the first failed boost and passes over failed rebroadcasts |
| TransactionManager.TransactionManager.BoostUnderpricedPendingTransactions | lib/gsn/packages/relay/src/TransactionManager.ts:385-446 | The store ends as the protocol's round ends, for exactly the rows from the mined count on; it throws for a missing nonce exactly if the lowest of them has another nonce |
| RoundRows.RoundWritesExactly | lib/gsn/packages/relay/src/TransactionManager.ts:385-446 | What a boost round leaves of every row, whatever fails in it: the rows of the signer from the mined count on that are written become their next attempt at the new fees where one of theirs is lower, and at their own otherwise; all others stay |
| RoundRows.AttemptExactly | lib/gsn/packages/relay/src/TransactionManager.ts:240-303 | What the next attempt keeps of a row and what it changes, field by field, for both kinds of transaction |
| TransactionManager.CountUnderpricedExactly | lib/gsn/packages/relay/src/TransactionManager.ts:426-445 | The number of boosted transactions a round returns |
| TransactionManager.TransactionManager.FillMinedBlockDetailsForTransactions | lib/gsn/packages/relay/src/TransactionManager.ts:347-379 | Marks exactly the rows due for a check whose last hash has a receipt in another block than recorded, with the block of that receipt, and changes no other row |
| TransactionManager.TransactionManager.RemoveArchivedTransactions | lib/gsn/packages/relay/src/TransactionManager.ts:340-345 | Removes exactly the rows mined at or before both configured limits |
| TransactionManager.PendingUntilOwnReceipt | lib/gsn/packages/relay/src/TransactionManager.ts:354-376 | In one pass of marking and pruning a pending row stays pending if and only if its last hash has no receipt |
| ReplacedAttempt.StaysPendingIff | lib/gsn/packages/relay/src/TransactionManager.ts:347-379 | For a pending row whose nonce is mined: however the pipeline goes on, with every interleaving of marking, pruning, boosting and sending, the row stays pending if and only if the transaction mined is not its last attempt |
| ReplacedAttempt.PendingRowBlocksAction | lib/gsn/packages/relay/src/TxStoreManager.ts:115-132 | Over the same continuations the guard of its action answers yes at every block, for every distance |
| ReplacedAttempt.EarlierAttemptBlocksForGood | lib/gsn/packages/relay/src/TransactionManager.ts:354-376 | A run from a consistent start in which a registration is boosted, its earlier attempt is mined, and the guard of registrations is blocked for good |
| CallPaths.SendIsAPath | lib/gsn/packages/relay/src/TransactionManager.ts:163-233 | A send past its first checks is a path of the state machine that ends with the rows and nonces the contract of the method states, in every outcome |
| CallPaths.PollIsAPath | lib/gsn/packages/relay/src/TransactionManager.ts:331-338 | So is a poll outside the mutex |
| CallPaths.MarkingIsAPath | lib/gsn/packages/relay/src/TransactionManager.ts:347-379 | So is marking all rows, when receipts exist only for mined transactions |
| CallPaths.PruningIsAPath | lib/gsn/packages/relay/src/TransactionManager.ts:340-345 | So is pruning |
| TransactionManager.RoundIsAPath | lib/gsn/packages/relay/src/TransactionManager.ts:385-446 | The end of a boost round is reached by worker steps of the state machine, so all run guarantees apply to the method |
| TransactionManager.LoopIsAPath | lib/gsn/packages/relay/src/TransactionManager.ts:427-444 | So is the end of the boost loop from any of its positions |
| TxStore.TxStoreManager.PutTx | lib/gsn/packages/relay/src/TxStoreManager.ts:32-53 | Inserts or overwrites one row, or refuses it when the unique index holds the key or the row is invalid, and leaves the others alone |
| TxStore.TxStoreManager.GetAll | lib/gsn/packages/relay/src/TxStoreManager.ts:104-108 | Returns all documents, each as often as stored, sorted by nonce |
| TxStore.TxStoreManager.GetTxsInNonceRange | lib/gsn/packages/relay/src/TxStoreManager.ts:79-87 | Returns exactly the signer's rows in the range, each once, in strictly ascending order of nonce |
| TxStore.TxStoreManager.RemoveArchivedTransactions | lib/gsn/packages/relay/src/TxStoreManager.ts:92-98 | Removes exactly the rows mined at or before both limits |
| TxStore.TxStoreManager.IsActionPendingOrRecentlyMined | lib/gsn/packages/relay/src/TxStoreManager.ts:115-132 | Answers true if and only if some matching row is pending or was mined within the distance |
| GasFees.RoundedProductIsNearest | lib/gsn/packages/relay/src/TransactionManager.ts:307-308 | The rounded product is the one integer within half of the exact product |
| GasFees.ResolvedFeesExactly | lib/gsn/packages/relay/src/TransactionManager.ts:305-329 | Both resolved fees in terms of the nearest integers to the old fees times the factor, the minimums and the cap |
| GasFees.ResolvedFeesAreValid | lib/gsn/packages/relay/src/TransactionManager.ts:305-329 | For all inputs the resolved pair has priority at most maximum at most cap, and honours both minimums unless the cap prevents it |
| GasFees.ResolvedFeesNeverDrop | lib/gsn/packages/relay/src/TransactionManager.ts:305-329 | With a factor of at least one a valid pair is never lowered |
| GasFees.BoostRaisesMaxFee | lib/gsn/packages/relay/src/TransactionManager.ts:307-323 | One boost raises the maximum fee if and only if it is below the cap and the network minimum is above it or old * (factor - 1) is at least one half |
| GasFees.BoostRaisesPriorityFee | lib/gsn/packages/relay/src/TransactionManager.ts:308-327 | One boost raises the priority fee of a valid pair if and only if there is room below the new maximum, and the minimum is above it or old * (factor - 1) is at least one half |
| GasFees.BoostsAreMonotone | lib/gsn/packages/relay/src/TransactionManager.ts:305-329 | Under fixed minimums successive boosts give a non-decreasing sequence of valid pairs |
| GasFees.BoostsReachTheCap | lib/gsn/packages/relay/src/TransactionManager.ts:305-329 | A fee the factor can move grows with every boost and is at the cap after at most cap - fee boosts, and stays there |
| GasFees.BoostsGrowGeometrically | lib/gsn/packages/relay/src/TransactionManager.ts:305-329 | Until it is at the cap, what the factor adds to the fee beyond one half is multiplied by at least the factor with every boost |
| GasFees.BoostsReachTheCapGeometrically | lib/gsn/packages/relay/src/TransactionManager.ts:305-329 | The logarithmic bound: the fee is at the cap after as many boosts as take that excess beyond the cap's |
| GasFees.SmallFeesNeverMove | lib/gsn/packages/relay/src/TransactionManager.ts:305-329 | A fee too small for the factor, with no minimum above it, is not raised by any number of boosts |
| NonceGap.ValidateRelayResponse | lib/gsn/packages/provider/src/RelayedTransactionValidator.ts:82-113 | The result counts as valid if and only if price, target, sender, content and nonce bound hold and the gap has the nonces from the last known one on, all harmless; what each flag says |
| NonceGap.ValidateNonceGapFilled | lib/gsn/packages/provider/src/RelayedTransactionValidator.ts:184-197 | Each transaction of the gap is validated against its own expected nonce, counted up from the last known one, and against the worker, the hub and the relay call |
| NonceGap.ValidateGasPrice | lib/gsn/packages/provider/src/RelayedTransactionValidator.ts:159-182 | The flags make up a valid price, as the decision about the transaction reads them, if and only if the offered fees cover the requested ones |
| NonceGap.AcceptedGapIsExact | lib/gsn/packages/provider/src/RelayedTransactionValidator.ts:82-113 | An accepted gap holds exactly the nonces from the last known one up to the transaction's own, each once, and the nonce is within the client's maximum |
| NonceGap.GetNonceGapFilled | lib/gsn/packages/relay/src/TransactionManager.ts:154-161 | Returns the stored transactions of the range, in order of nonce, as they were signed |
| NonceGap.ServedGapExactly | lib/gsn/packages/relay/src/TransactionManager.ts:154-161 | The served gap has each stored nonce of the range once, in ascending order, and no other; each transaction of it has sender, target, data and price of its row |
| NonceGap.ServerFillsGap | lib/gsn/packages/relay/src/RelayServer.ts:429-430 | The server's gap passes the size check and every nonce check if and only if the last known nonce is not above the transaction's and all rows in between are stored |
| NonceGap.ServerGapIsHarmless | lib/gsn/packages/provider/src/RelayedTransactionValidator.ts:65-80 | The rest of the gap checks pass if and only if every row in between is a relay call on the client's hub |
| NonceGap.ReachableServerFillsGap | lib/gsn/packages/relay/src/TransactionManager.ts:154-161 | In every reachable state the gap of an answering send passes if and only if no row between the last known nonce and the mined count has been pruned |
| NonceLimits.CheckedNonceIsKeptIff | lib/gsn/packages/relay/src/RelayServer.ts:257-263 | A send takes the nonce an earlier poll returned plus one for each nonce handed out in between, so a request that passed the check of its greatest nonce is sent within it if and only if at most the difference were handed out |
| NonceLimits.AnswerIsAcceptedIff | lib/gsn/packages/provider/src/RelayedTransactionValidator.ts:82-113 | In every reachable state in which a send answers, the client accepts the whole answer if and only if price, sender, target and content suffice, the nonce is within both limits, nothing needed was pruned, and all rows in between are relay calls on its hub |
| NonceLimits.AskedAnswerIsAcceptedIff | lib/gsn/packages/relay/src/RelayServer.ts:414-434 | For a send that did as the request asks, only the nonces, the pruning and the rows in between decide |
| WaitForSuccess.RaceGuarantees | lib/gsn/packages/common/src/Utils.ts:460-488 | In every order of settle, reject, finally and timer events: results and errors never outnumber the promises, a winner is a result and no error, no winner means every promise was rejected, and the race has resolved once all handlers ran |
| WaitForSuccess.ResolvedForGood | lib/gsn/packages/common/src/Utils.ts:466-471 | A resolved race stays resolved and keeps having a winner |
| WaitForSuccess.WinnerCanChangeIff | lib/gsn/packages/common/src/Utils.ts:464-487 | The next event can change the winner of a resolved race if and only if there is another result, and the timer is running or every promise is settled and some `finally` is left to run |
| WaitForSuccess.WinnerIsFinalIff | lib/gsn/packages/common/src/Utils.ts:464-487 | However a resolved race goes on its winner stays, if and only if every promise is settled and there is no other result or no timer and no `finally` left |
| WaitForSuccess.TimerChangesWinner | lib/gsn/packages/common/src/Utils.ts:473-478 | A race of any two promises in which the timer changes the winner after the race has resolved |
| WaitForSuccess.FinallyChangesWinner | lib/gsn/packages/common/src/Utils.ts:482-487 | One in which the second `finally` does, without the timer |
| WaitForSuccess.LateResultChangesWinner | lib/gsn/packages/common/src/Utils.ts:473-487 | One in which a promise succeeds after the timer has resolved the race, and its `finally` changes the winner |
| WaitForSuccess.EmptyRaceNeverResolves | lib/gsn/packages/common/src/Utils.ts:473-487 | A race of no promises never resolves |
| WaitForSuccess.CheckKeys | lib/gsn/packages/common/src/Utils.ts:451-459 | Starts only with one key for each promise, all different; both error cases exactly |
| WaitForSuccess.RaceObject.OnFulfilled | lib/gsn/packages/common/src/Utils.ts:474-479 | Is the event of the race that adds a result and starts the timer with the first one |
| WaitForSuccess.RaceObject.OnFinally | lib/gsn/packages/common/src/Utils.ts:483-487 | Is the event of the race that completes it when everything is handled |
| WaitForSuccess.RaceObject.OnRejected | lib/gsn/packages/common/src/Utils.ts:480-482 | Is the event of the race that records an error under its key |
| WaitForSuccess.RaceObject.OnGraceTimer | lib/gsn/packages/common/src/Utils.ts:466-471 | Is the event of the race that completes it when the grace period ends |
| RelaySelection.DedupeGivesDistinctKeys | lib/gsn/packages/provider/src/RelaySelectionManager.ts:133-148 | The keys raced are always distinct, and no URL is lost or made up |
| RelaySelection.DedupeKeepsLast | lib/gsn/packages/provider/src/RelaySelectionManager.ts:133-148 | Of several entries with one URL the last is raced |
| RelaySelection.RaceHasOutcome | lib/gsn/packages/provider/src/RelaySelectionManager.ts:133-148 | Every resolved race of the promise model has an outcome the selection relies on: its winner is in the slice and not failed, without winner all have failed |
| RelaySelection.NoUrlIsPingedAgain | lib/gsn/packages/provider/src/RelaySelectionManager.ts:150-158 | A URL that won or failed a race is in no later slice and is never settled again |
| RelaySelection.TiersAreExhaustedInOrder | lib/gsn/packages/provider/src/RelaySelectionManager.ts:100-111 | A relay is pinged only when every relay of all earlier tiers has won or failed |
| RelaySelection.RacesAreBounded | lib/gsn/packages/provider/src/RelaySelectionManager.ts:46-58 | Every race settles a new URL, so there are never more races than URLs |
| RelaySelection.EveryUrlIsInOnePlace | lib/gsn/packages/provider/src/RelaySelectionManager.ts:60-86 | At every point of every run each initial URL is in exactly one of remaining, returned, failed or dropped as unregistered, and no URL is returned twice |
| RelaySelection.PingErrorsExactly | lib/gsn/packages/provider/src/RelaySelectionManager.ts:150-158 | Whatever error a race of a run ended with for a URL is reported under that URL at the end |
| RepeatedRelay.RelayReturnedTwiceIffKnownTwice | lib/gsn/packages/provider/src/RelaySelectionManager.ts:41-58 | Some run returns one relay twice if and only if the client knows it under two URLs, each of which is not a preferred one or has a server that names a registered manager |
| RepeatedRelay.KnownTiersPutPreferredFirst | lib/gsn/packages/provider/src/KnownRelaysManager.ts:78-97 | The tiers a transaction starts from are those that statement is about: the preferred URLs first, and only they without a registration event |
| RelaySelection.RelaySelectionManager.GetNextSlice | lib/gsn/packages/provider/src/RelaySelectionManager.ts:100-111 | Returns the head of the first tier that is not empty, of at most the slice size |
| RelaySelection.NextSliceIsHeadOfFirstTier | lib/gsn/packages/provider/src/RelaySelectionManager.ts:100-111 | What the next slice is in terms of the tiers: nothing if and only if all are empty |
| RelaySelection.RelaySelectionManager.HandleWaitForSuccessResults | lib/gsn/packages/provider/src/RelaySelectionManager.ts:150-158 | Merges the errors and removes the winner and all failed relays from every tier, and nothing else |
| RelaySelection.RelaySelectionManager.NextRelay | lib/gsn/packages/provider/src/RelaySelectionManager.ts:60-86 | Runs one race and selects its winner unless that is preferred and not registered; fewer relays remain |
| RelaySelection.SelectedExactly | lib/gsn/packages/provider/src/RelaySelectionManager.ts:60-86 | A registered winner is selected as it is; a preferred one if and only if the manager it names is registered, with that registration under the preferred URL |
| RelaySelection.RelaySelectionManager.SelectNextRelay | lib/gsn/packages/provider/src/RelaySelectionManager.ts:46-58 | Terminates; returns the first selected relay of the races it runs, or nothing only when no slice is left |
| RelayClient.RelayTransaction | lib/gsn/packages/provider/src/RelayClient.ts:280-319 | Terminates; throws if and only if no relay is known; otherwise its result is an outcome as the next row spells out |
| RelayClient.OutcomeInAttempts | lib/gsn/packages/provider/src/RelayClient.ts:290-318 | Every attempt before the last failed with a relay error; if a relay is left to ping, the last one has a transaction or failed otherwise; the result is the transaction of the last attempt |
| RelayClient.ErrorsOfOutcome | lib/gsn/packages/provider/src/RelayClient.ts:303-318 | The reported error of each URL is that of the attempt with it, and only attempts without a transaction are reported |
| RelayClient.GivingUpAccountsForEveryRelay | lib/gsn/packages/provider/src/RelayClient.ts:290-318 | When the client gives up, every relay it knew failed its ping, failed to relay, or was unregistered, exactly one of these |
| RelayClient.NoUrlIsAttemptedTwice | lib/gsn/packages/provider/src/RelayClient.ts:290-307 | No URL is sent the request twice, and there are at most as many attempts as URLs |
| RelayClient.NothingIsTriedWithSliceSizeZero | lib/gsn/packages/provider/src/RelaySelectionManager.ts:103-108 | With a slice size of zero nothing is pinged, attempted or reported although relays are known |
| KnownRelays.Shuffle | lib/gsn/packages/common/src/Utils.ts:405-421 | Leaves in the array the shuffle determined by the numbers drawn |
| KnownRelays.ShuffledIsPermutation | lib/gsn/packages/common/src/Utils.ts:405-421 | Whatever is drawn, the shuffle is a permutation |
| KnownRelays.EveryPermutationIsReachable | lib/gsn/packages/common/src/Utils.ts:405-421 | Every permutation comes out for some numbers drawn |
| KnownRelays.KnownRelaysManager.GetRelaysShuffledForTransaction | lib/gsn/packages/provider/src/KnownRelaysManager.ts:78-97 | Three tiers: preferred in their order, then registered without failures, then with, each as a multiset, all restricted to valid URLs |
| KnownRelays.KeepInOrder | lib/gsn/packages/provider/src/KnownRelaysManager.ts:89-95 | Restricting a tier to valid URLs keeps its order |
| KnownRelays.TiersHoldAllValidRelays | lib/gsn/packages/provider/src/KnownRelaysManager.ts:78-97 | The tiers together hold exactly the valid URLs, and the two registered tiers are disjoint |
| PagedLogs.GetLogsPagesForRange | lib/gsn/packages/common/src/ContractInteractor.ts:650-675 | The fewest pages of the configured size that hold the range; the error if and only if a page limit meets a non-number |
| PagedLogs.SplitRange | lib/gsn/packages/common/src/ContractInteractor.ts:677-694 | The pages are in order, disjoint, cover the range exactly and are at most as many as asked for |
| PagedLogs.FirstSplitFits | lib/gsn/packages/common/src/ContractInteractor.ts:650-694 | With the computed number of pages no page is longer than configured: ceil(n / ceil(n / m)) is at most m |
| PagedLogs.GetPastEventsPaginated | lib/gsn/packages/common/src/ContractInteractor.ts:700-779 | Returns what the fetched pages of all rounds return, or the exact error, for every sequence of replies. When all requests are answered: the events from the first block, 1 by default, to the last one, the head by default; those of the first block alone if it is beyond the head; and the two errors of the range |
| PagedLogs.PageIsRetried | lib/gsn/packages/common/src/ContractInteractor.ts:735-762 | A page is asked for until it is answered, at most a hundred times, and then the last error counts |
| PagedLogs.LastRoundDecides | lib/gsn/packages/common/src/ContractInteractor.ts:727-777 | After rounds that each met too many events and were followed by one with four times as many parts, the last one decides: it succeeds when answered, fails with another error, and with too many events only beyond 16 parts |
| PagedLogs.NeverAnsweredFails | lib/gsn/packages/common/src/ContractInteractor.ts:728-777 | When no request is ever answered the query fails, by too many events exactly if that was the error |
| PagedLogs.PagedQueryReturnsRange | lib/gsn/packages/common/src/ContractInteractor.ts:727-778 | A successful numeric query returns exactly the single-query list, preceded by what each of at most three abandoned rounds had fetched |
| PagedLogs.RoundsReturnRangeAfterRepeats | lib/gsn/packages/common/src/ContractInteractor.ts:728-777 | The same from any number of pages, with the number of re-splits bounded by it |
| PagedLogs.ExactIffNothingWasAbandoned | lib/gsn/packages/common/src/ContractInteractor.ts:764-778 | The result of a successful query is the single-query list if and only if none of its rounds but the last had fetched an event |
| PagedLogs.AnsweredQueryIsExact | lib/gsn/packages/common/src/ContractInteractor.ts:700-779 | When every request is answered the query succeeds with exactly the single-query list |
| PagedLogs.LatestIsNeverSplit | lib/gsn/packages/common/src/ContractInteractor.ts:654-660 | A query up to the latest block succeeds only as one unsplit query, and only with pagination off |
| PagedLogs.EventsCanBeReturnedTwice | lib/gsn/packages/common/src/ContractInteractor.ts:727-741 | A concrete query whose result has an event twice |
| Reputation.FlagIsRaisedExactly | lib/gsn/packages/relay/src/ReputationManager.ts:106-114 | In every run, decided on the pruned log, the abuse flag is raised if and only if the full history's net loss in the window reaches the limit |
| Reputation.WindowsAgree | lib/gsn/packages/relay/src/ReputationStoreManager.ts:62-81 | In every run the pruned log and the full history of applied changes have the same window at every block not before an update |
| Reputation.UnflaggedLossIsBounded | lib/gsn/packages/relay/src/ReputationManager.ts:98-117 | An update that does not raise the flag leaves the net loss in the window within the limit |
| Reputation.ReputationIsBasePlusChanges | lib/gsn/packages/relay/src/ReputationStoreManager.ts:26-81 | In every run the reputation is the last reset value plus the changes applied since, bounded by the maximum or that value, and the flag is that of the history |
| Reputation.ReputationNeverExceedsMaximum | lib/gsn/packages/relay/src/ReputationManager.ts:106-108 | With reset values within the maximum no run exceeds it |
| Reputation.FarAboveMaximumNothingCounts | lib/gsn/packages/relay/src/ReputationManager.ts:106-108 | More than one above the maximum, failures are ignored too |
| Reputation.BanLastsOneWindow | lib/gsn/packages/relay/src/ReputationManager.ts:73-82 | In every run a paymaster is answered as abused if and only if it is above the block level and at most a window of blocks has passed since its last flag |
| Reputation.StatusIsExactly | lib/gsn/packages/relay/src/ReputationManager.ts:67-92 | In every run, by its history: blocked if and only if known changes have brought the paymaster to the block level or below; throttled if and only if it is neither blocked nor banned, below the throttle level and within the delay since its last accepted request; good otherwise |
| Reputation.WindowExactly | lib/gsn/packages/relay/src/ReputationStoreManager.ts:62-81 | Which changes a window holds, each as often as it was applied |
| Reputation.AnswerAfterBanIsStale | lib/gsn/packages/relay/src/ReputationManager.ts:76-88 | Exactly when the call that lifts a ban answers as an immediate second call would |
| Reputation.NoFlagAtBlockZero | lib/gsn/packages/relay/src/ReputationManager.ts:76-77 | A flag raised at block zero leaves the paymaster unflagged |
| Reputation.ReputationManager.GetPaymasterStatus | lib/gsn/packages/relay/src/ReputationManager.ts:67-92 | The status by the entry as it was, spelled out level by level, creating it if missing, and the reset of an expired ban |
| Reputation.ReputationManager.UpdatePaymasterStatus | lib/gsn/packages/relay/src/ReputationManager.ts:98-117 | The whole new store: one entry changed as the specification says, even when the store refuses the change after the flag was set |
| Reputation.ReputationManager.OnRelayRequestAccepted | lib/gsn/packages/relay/src/ReputationManager.ts:94-96 | Stamps the entry, or fails if there is none |
| Reputation.ReputationStoreManager.UpdatePaymasterReputation | lib/gsn/packages/relay/src/ReputationStoreManager.ts:62-81 | Adds the change and keeps exactly the changes after the expiration block; refuses an expiration not before the event |
| Reputation.ReputationStoreManager.ClearAbuseFlag | lib/gsn/packages/relay/src/ReputationStoreManager.ts:37-43 | Resets flag and reputation of one entry and keeps its log |
| ReputationRaces.UndisturbedUpdate | lib/gsn/packages/relay/src/ReputationManager.ts:98-117 | In every interleaving, an update during which no other call writes has the effect of the one step the other statements treat it as |
| ReputationRaces.FlagSurvivesIff | lib/gsn/packages/relay/src/ReputationStoreManager.ts:83-87 | A flag set or cleared survives the next write if and only if that write sets the same, or leaves the flag alone and has found it, or found an equal one |
| ReputationRaces.ReputationSurvivesIff | lib/gsn/packages/relay/src/ReputationStoreManager.ts:62-87 | The same for the reputation |
| ReputationRaces.BanIsLost | lib/gsn/packages/relay/src/ReputationManager.ts:98-114 | A run in which an update raises the flag and a relayed request that is being noted puts the old one back |
| ReputationRaces.ResetIsLost | lib/gsn/packages/relay/src/ReputationManager.ts:76-82 | A run in which the end of a ban and the reset of the reputation are undone like that |
| ActionGuards.ActionsAreSpaced | lib/gsn/packages/relay/src/RegistrationManager.ts:298-316 | In every run of a server that keeps transactions for more blocks than the guard looks back, from any store with at most one pending for each guard: when a guarded action is sent, every earlier one of its kind was mined more than the distance of blocks before |
| ActionGuards.SpacingHoldsIffKeptLongEnough | lib/gsn/packages/relay/src/TxStoreManager.ts:92-132 | That holds in all runs if and only if transactions are kept for more blocks than the guard looks back |
| ActionGuards.AtMostOnePending | lib/gsn/packages/relay/src/RegistrationManager.ts:382-411 | In every state of every run, whatever the configuration and the store left by an earlier process, there is at most one pending registration, one pending added worker and one pending hub authorization |
| ActionGuards.PruningIsInvisibleIffKeptLongEnough | lib/gsn/packages/relay/src/TxStoreManager.ts:92-132 | Pruning never changes the guard's answer, at this or any later block, if and only if rows are kept for more blocks than the guard looks back |
| ActionGuards.NextKeepsPendingInv | lib/gsn/packages/relay/src/RegistrationManager.ts:208-214 | Every step of the worker and of the other senders keeps at most one guarded action pending, and none behind a guard just passed |
| ActionGuards.NextKeepsSpacing | lib/gsn/packages/relay/src/RegistrationManager.ts:208-214 | With transactions kept long enough, every step keeps all actions behind a passed guard long mined, the pruned ones included |
| Registration.RegistrationManager.RefreshStake | lib/gsn/packages/relay/src/RegistrationManager.ts:292-339 | Authorizes the hub at most once, and takes over owner, stake and lock exactly; the error for a foreign owner |
| Registration.RegistrationManager.AttemptRegistration | lib/gsn/packages/relay/src/RegistrationManager.ts:359-412 | Sends exactly the missing worker and the registration if all prerequisites hold, the balance as answered included, and otherwise at most an authorization |
| Registration.RegistrationManager.HandleRegistration | lib/gsn/packages/relay/src/RegistrationManager.ts:166-214 | In one round no guarded action is sent twice and none that was pending. A registration is sent if and only if no refresh failed, the prerequisites hold after the refreshes, and it is forced, or missing and not under way; the worker with it if and only if it is neither valid nor pending; an authorization, when no refresh fails, if and only if one is needed and none is pending |
| Registration.RegistrationManager.ShouldRegisterAgain | lib/gsn/packages/relay/src/RelayServer.ts:774-796 | Registration is forced if and only if the last one is too old and none is under way |
| DelayedReveals.PenalizerService.ExecuteReadyPenalizations | lib/gsn/packages/relay/src/penalizer/PenalizerService.ts:227-244 | Everything ready is taken off and sent once, in order, never before its ready block; the rest stays in order, together with what arrives meanwhile; a failure loses just the one being sent |
| DelayedReveals.PenalizerService.QueryReadyBlocksForMinedCommitments | lib/gsn/packages/relay/src/penalizer/PenalizerService.ts:249-267 | Sets unknown ready blocks in place from the first commitment with the hash, and changes no known one |
| DelayedReveals.ReadyBlockExactly | lib/gsn/packages/relay/src/penalizer/PenalizerService.ts:249-267 | The ready block is that of the first commitment with the hash, and there is none if and only if no commitment has it |
| DelayedReveals.ReadyInOrder | lib/gsn/packages/relay/src/penalizer/PenalizerService.ts:227-233 | The ready penalizations are handled in the order they were scheduled |
| DelayedReveals.PenalizerService.CommitAndScheduleReveal | lib/gsn/packages/relay/src/penalizer/PenalizerService.ts:300-304 | Appends the penalization before its commitment is sent |
| DelayedReveals.PenalizerService.ScheduledIsTheRest | lib/gsn/packages/relay/src/penalizer/PenalizerService.ts:227-244 | Over any sequence of runs of one handler at a time each penalization ever scheduled is either still scheduled or was taken off, and the list has no duplicates; handlers that overlap are in the rows below |
| Sequences.SpliceRemovesJustItIffPresent | lib/gsn/packages/relay/src/penalizer/PenalizerService.ts:235-237 | Splicing by the found index removes just the penalization if and only if it is on the list or the list is empty |
| OverlappingReveals.SelectionIsSafeIff | lib/gsn/packages/relay/src/penalizer/PenalizerService.ts:227-244 | Among any number of handlers, what a handler selects loses or repeats nothing in any continuation without another such selection, if and only if no other handler has selected any of it and not yet taken it |
| OverlappingReveals.NoOverlapKeepsPromise | lib/gsn/packages/relay/src/penalizer/PenalizerService.ts:216-244 | In every run of any number of handlers none of which selects what another still holds, each penalization ever scheduled is on the list or was taken off once |
| OverlappingReveals.PromiseKeptIffNoneMissing | lib/gsn/packages/relay/src/penalizer/PenalizerService.ts:235-237 | In every run whatever, that holds if and only if no handler has taken a penalization that was no longer on the list |
| OverlappingReveals.LostForGood | lib/gsn/packages/relay/src/penalizer/PenalizerService.ts:235-237 | A penalization that vanished from the list without being taken, and that no handler has selected, is never revealed |
| OverlappingReveals.OverlapRepeatsAndLoses | lib/gsn/packages/relay/src/penalizer/PenalizerService.ts:126-126 | A run of two handlers in which the second of any three penalizations is revealed twice and the third is lost |
| DelayedWithdrawals.FiresAtFirstDueBlock | lib/gsn/packages/relay/src/RegistrationManager.ts:199-223 | A round takes an event off the list, to withdraw for it, if and only if the event was handled by then, no round since that got to the list had found it due, and this one does |
| DelayedWithdrawals.EachEventFiresOnceOrWaits | lib/gsn/packages/relay/src/RegistrationManager.ts:180-223 | In every run, wherever its rounds throw, each time an event is put on the list leads to exactly one withdrawal, or the event still waits, or a round has dropped it in failing to withdraw |
| DelayedWithdrawals.WaitsUntilDue | lib/gsn/packages/relay/src/RegistrationManager.ts:218-223 | An event waits if and only if no round since it was handled has got to the list and found it due |
| DelayedWithdrawals.DelayedEvents.HandleHubEvents | lib/gsn/packages/relay/src/RegistrationManager.ts:166-207 | One round of the code, up to where it throws, is one round of that history; the hub is authorized by its latest event handled |
| DelayedWithdrawals.AuthorizedByLatest | lib/gsn/packages/relay/src/RegistrationManager.ts:166-185 | The hub counts as authorized exactly as its latest event says |
| DelayedWithdrawals.AuthorizedAsBefore | lib/gsn/packages/relay/src/RegistrationManager.ts:166-185 | Without an event of the hub it counts as before |
| DelayedWithdrawals.RoundExactly | lib/gsn/packages/relay/src/RegistrationManager.ts:166-223 | Which events one round takes off the list and which wait after it, by their removal times and by where it throws |
| DelayedWithdrawals.DelayedEvents.ExtractDuePendingEvents | lib/gsn/packages/relay/src/RegistrationManager.ts:218-223 | Splits the list into the due events and the others, both in order |
| DelayedWithdrawals.SplitInOrder | lib/gsn/packages/relay/src/RegistrationManager.ts:218-223 | Both parts keep the order of the list |
| ScannedEvents.RoundKeepsEachOnceIff | lib/gsn/packages/relay/src/RelayServer.ts:735-747 | If each event up to the last scanned block has led to one withdrawal or waits once, that is still so after a round if and only if the round completed and found no event beyond its own block, or threw and had put none on the list, or dropped just what it had put there |
| ScannedEvents.AlwaysEachOnceIff | lib/gsn/packages/relay/src/RegistrationManager.ts:133-207 | It is so at every point of a run if and only if no round of the run did otherwise |
| ScannedEvents.LostForGood | lib/gsn/packages/relay/src/RegistrationManager.ts:218-223 | An event that was scanned and is off the list is never withdrawn for later |
| ScannedEvents.FailureRepeatsWithdrawal | lib/gsn/packages/relay/src/RelayServer.ts:741-747 | A run in which a round throws after a withdrawal and the next one repeats it |
| ScannedEvents.FailureLosesWithdrawals | lib/gsn/packages/relay/src/RegistrationManager.ts:201-206 | A run in which a withdrawal throws, and neither it nor the one after it ever happens |
| ScannedEvents.LagRepeatsWithdrawal | lib/gsn/packages/relay/src/RegistrationManager.ts:143-148 | A run without any failure that withdraws twice for one event, which was in a later block than the one the first round worked on |
| RelayUrlCodec.RoundTrip | lib/gsn/packages/common/src/Utils.ts:338-356 | For every ASCII URL that fits, packing the split URL gives it back if and only if it has no line terminator and does not end in a NUL |
| RelayUrlCodec.StrippingStripsWholeBytes | lib/gsn/packages/common/src/Utils.ts:351-356 | Stripping pairs of zeros strips whole NUL bytes and never half of another byte |
| RelayUrlCodec.PackGivesStoredBytes | lib/gsn/packages/common/src/Utils.ts:338-356 | For every ASCII URL that fits, packing gives the padded chunks without trailing NULs |
| RelayUrlCodec.SplitRelayUrlForRegistrar | lib/gsn/packages/common/src/Utils.ts:338-349 | Exactly the asked number of words of 32 bytes each, and the error if and only if the URL is too long |
| RelayUrlCodec.SplitExactly | lib/gsn/packages/common/src/Utils.ts:338-349 | Byte k of word i is byte 32 * i + k of a URL without line terminators, in two lower-case digits, or zero after its end |
| FeeAgreement.AgreementForAllNetworks | lib/gsn/packages/provider/src/RelayClient.ts:325-338 | The client's priority fee suffices for all network fees if and only if the server's factor is at most the client's mark-up and the server's default at most the client's minimum, across both roundings |
| FeeAgreement.AcceptedIff | lib/gsn/packages/relay/src/RelayServer.ts:236-255 | Computed fees are accepted if and only if the priority fee suffices and the maximum is within the cap; the other checks never fail |
| FeeAgreement.CalculateGasFees | lib/gsn/packages/provider/src/RelayClient.ts:325-338 | Both fees by the integers nearest to the network's with the mark-up, the client's minimum and the fallback to the priority fee; with a mark-up the maximum covers the priority fee and the base fee |
| FeeAgreement.RelayServer.RefreshGasFees | lib/gsn/packages/relay/src/RelayServer.ts:705-733 | Both minimums from the network fees (the priority fee times the factor rounded down, or the default for zero), set even when an error for the cap follows |
| FeeAgreement.RelayServer.ValidateGasFees | lib/gsn/packages/relay/src/RelayServer.ts:236-255 | Accepts if and only if both minimums and the validity rule hold; which error otherwise |
| Balances.RelayServer.ReplenishServer | lib/gsn/packages/relay/src/RelayServer.ts:580-629 | Funds move exactly as specified and are conserved; when it withdraws and when it tops up; a top-up fills the worker and leaves the manager above its minimum |
| Balances.ReserveRefillsBoth | lib/gsn/packages/relay/src/RelayServer.ts:601-627 | From the reserve a payout leaves, one round brings both balances to their minimum except in two cases of equality, exactly |
| Balances.EventuallyRefilledIff | lib/gsn/packages/relay/src/RelayServer.ts:580-629 | From which funds any number of rounds brings both balances to their minimums, in closed form and however late withdrawals show; two rounds then suffice |
| Balances.RoundsKeepRefillable | lib/gsn/packages/relay/src/RelayServer.ts:580-629 | Over any number of rounds funds are conserved, the worker never loses, and funds that cannot be refilled stay so |
| Balances.RefilledForGood | lib/gsn/packages/relay/src/RelayServer.ts:594-599 | Once both balances are at their minimums, further rounds change nothing |
| Balances.ReserveRefillsBothIff | lib/gsn/packages/relay/src/RelayServer.ts:852-873 | After a payout, the following rounds refill both balances except in those two cases of equality |
| TopUpRace.TopsUpIffNoneInserted | lib/gsn/packages/relay/src/RelayServer.ts:591-593 | In every interleaving of any number of calls, a call tops up the worker if and only if no top-up had been stored when it asked |
| TopUpRace.BothTopUpIff | lib/gsn/packages/relay/src/RelayServer.ts:591-627 | Two calls both top up the worker if and only if both have asked before any top-up is stored |
| TopUpRace.WorkerCanBeToppedUpTwice | lib/gsn/packages/relay/src/RelayServer.ts:432-432 | A run in which the worker's round and a request both top up |
| Balances.TopUpFailsExactlyWhen | lib/gsn/packages/relay/src/RelayServer.ts:601-627 | A worker in need is not topped up if and only if the manager's surplus equals what it lacks, or is less and does not exceed it even with the whole hub balance |
| Balances.EqualSurplusIsStuck | lib/gsn/packages/relay/src/RelayServer.ts:604-620 | When the surplus equals the missing amount, replenishing changes nothing |
| Balances.LateSettlementCatchesUp | lib/gsn/packages/relay/src/RelayServer.ts:610-627 | A withdrawal that settles later delays the top-up by a round |
| Balances.PayoutLeavesReserve | lib/gsn/packages/relay/src/RelayServer.ts:852-873 | A payout happens exactly from the threshold on, exceeds the reserve, and leaves exactly both targets in the hub |
| Balances.RelayServer.WithdrawToOwnerIfNeeded | lib/gsn/packages/relay/src/RelayServer.ts:852-873 | Pays out if and only if the server is ready and the hub balance is at least threshold and both targets together; the hub keeps the targets and the owner gets the rest |
| Balances.TopUpKeepsManager | lib/gsn/packages/relay/src/RelayServer.ts:616-627 | The amount sent is positive, fills the worker to its target, and leaves the manager strictly above its minimum |
| Balances.ValidateBalanceParams | lib/gsn/packages/relay/src/ServerConfigParams.ts:582-600 | Accepts exactly the parameters the balance statements need; which error otherwise |

## Left out

- BoostRounds.CompletedRoundRaisesFees: speaks of the transactions that were pending when the round loaded them; those stored while it runs are dealt with by the next round.
- NonceGap.ReachableServerFillsGap: speaks of the state in which the gap is read; `getNonceGapFilled` reads the store in one step.
- WaitForSuccess.RaceGuarantees: the promises themselves and the length of the grace period are not modelled, only the order of their handlers.
- RelaySelection.EveryUrlIsInOnePlace: the list of registered relays is fixed for one request; a refresh by a concurrent request is not modelled.
- PagedLogs.GetPastEventsPaginated: block tags other than `latest` and block numbers given as text are not modelled, and the chain does not grow during one query.
- ActionGuards.AtMostOnePending: does not cover top-ups and withdrawals, which several activities send (see `TopUpRace`).
- TopUpRace.BothTopUpIff: the calls see the same cached balances, and no top-up is mined while they run.
- Balances.EventuallyRefilledIff: nothing older is pending at a round, and nothing else spends from the balances.
- RelayUrlCodec.RoundTrip: URLs are ASCII; UTF-8 encoding of other characters is not modelled.
- Balances.RelayServer.ReplenishServer: one call at a time, with the cached balances up to date.
- Balances.ReserveRefillsBoth: gas is not counted, and the withdrawal shows in the balance at once; `LateSettlementCatchesUp` treats the other case.
- Registration.RegistrationManager.HandleRegistration: a send that fails before its row is stored ends the round and leaves the model's state unchanged; it is not a separate step.
- OverlappingReveals.SelectionIsSafeIff: the query for ready blocks is one step for each penalization it learns of.
- ScannedEvents.AlwaysEachOnceIff: events before the first scanned block, and the list a restarted process loses, are outside the run; a withdrawal that throws between its transfers counts as dropped.
- ReputationRaces.UndisturbedUpdate: the entry exists; two calls that create it at once are not modelled.
- Signing, hashing, RLP, ABI and EIP-712 encoding, RPC, HTTP and the database file: library calls behind abstract records and replies.
- The `AmountRequired` listeners, statistics, command line, deployer, provider wrappers and the explorer cache: plumbing, or easy members.
- The Solidity contracts: they are not part of this model.
