# Verified model of the Hexstody custody ledger

Hexstody is a custody: users deposit, withdraw and exchange currencies; operators vote on
withdrawals, limits and exchanges; every change is an update in an append-only log, and the
state is what folding the log gives. This project models that ledger in Dafny and proves
what it keeps over whole runs. `dafny verify dfyconfig.toml` checks everything.

## How the model is laid out

| file | what it models |
|---|---|
| `Domain.dfy`, `Collections.dfy` | currencies, errors, wrapping 64-bit integers; sums over maps |
| `Transactions.dfy`, `Withdrawals.dfy`, `Limits.dfy`, `Exchanges.dfy`, `Accounts.dfy` | the entities, their votes, the exchange wallet (a class), balances |
| `Updates.dfy`, `StateMachine.dfy` | the state, the 23 update kinds, and the transition function |
| `Ledger.dfy`, `Worker.dfy` | the mutable ledger and the update worker (classes), proved against the transition function |
| `Invariants.dfy`, `Runs.dfy`, `Frames.dfy`, `Requests.dfy` | what every account keeps; runs; what each kind of update may touch; withdrawal requests over runs |
| `Deposits.dfy` | what a deposit is worth; from the node's list to the balance; a user's deposits over runs |
| `UnderLimit.dfy`, `Settlement.dfy` | payment without a vote; completion, refusal and cancelling of a withdrawal |
| `Admission.dfy`, `Settings.dfy` | invites and deposit addresses over runs; settings, best block and wallet addresses |
| `Payments.dfy` | what is sent on for payment over a run, and when it is sent on twice |
| `ExchangeAgreement.dfy`, `Conservation.dfy`, `Solvency.dfy` | three copies of an exchange; cached balances and conservation; no overspending |
| `Joining.dfy`, `UnknownCurrency.dfy` | runs of a new custody: an account overdrawn by one withdrawal, and a purchase that makes the exchange wallet's cached balances wrong |
| `Replay.dfy`, `Restarts.dfy` | the log rebuilds the state; snapshots; database order; a custody restarted any number of times |
| `Quorum.dfy`, `Pipeline.dfy` | the second quorum check in the Bitcoin module; delivery of Bitcoin events (the scan state and the whole path are classes) |
| `Mnemonic.dfy` | the 8-bit to 11-bit repacking behind the key mnemonic (BIP-39, section "Generating the mnemonic") |

The state and everything it owns by value are datatypes; `apply_update` is the function
`StateMachine.Apply`. What the source does by mutation (`State`, `ExchangeState`, the worker,
the scan state) is a class whose methods carry the source's branches and loops and are proved
equal to that function. Facts are then proved about the function, over arbitrary runs in which
refused updates leave the state alone.

Inputs that are not functions of state and update are parameters: the fresh id and clock
reading inside a limit request, and which entry a search over a `HashMap` meets first
(`Nondet`; `Admissible` says which search results are possible). Database failures, node
answers, signature verification, address parsing and the hash are parameters too.

## Hypotheses, and why each is there

- Request ids are fresh over a run where at-most-once confirmation or payment is claimed, and order ids are
  fresh on their account where overspending is: `HashMap::insert` overwrites.
- Where the three copies of an exchange are concerned, an accepted request has an order id no record and
  no other order has, an accepted confirmation repeats the order's `currency_to` and `amount_to`, and a
  disabled token took no part in a completed exchange. Each is exactly what the code needs
  (`RequestAgreesIff`, `ConfirmationAgreesIff`, `DisableAgreesIff`), and together they are (`StepAgreesIff`,
  `AgreesThroughoutIff`). Conservation needs nothing else. Nothing is asked of refused updates.
- For the cached balances alone: the bought currency is a key of `balances`, and a re-reported or cancelled
  exchange deposit carries its stored amount. This too is exact (`ConfirmationReconciledIff`,
  `IncomingReconciledIff`, `CancelReconciledIff`; `StepCacheIff`, `ReconciledThroughoutIff`).
- Stored time stamps increase, because the log is read back in their order; exactly then is the
  answer of the database determined (`NewestFirstDeterminedIff`). Senders stamp updates before the
  channel orders them, so nothing in the code enforces it (`LateInviteBreaksRestart`).
- Times are whole numbers of the unit the table keeps. Its column is a `timestamp`, in microseconds, while an
  update carries a finer clock; so "stamps increase" means in the table, and a rebuilt state equals the live one
  in its time stamp and creation times at that precision.
- A deposit address has one owner where replay or a user's deposits are concerned, and a transaction completed
  one withdrawal where replay is (`SharedAddressDiverges` and `SharedTransactionDiverges` show what happens
  otherwise).
- A snapshot inside a run satisfies the invariant being proved; where the history of a request
  is concerned it repeats the current users, as the source's comment on `Snapshot` says it does.

## Where the code does not do what one would expect

- With three or more operators a vote switch can jump over the threshold, in either direction
  (`QuorumMissedIff`, `RejectionMissedIff`, `ThreeOperatorsCanMissQuorum`).
- The vote does not read the type of a request: one under the limit, sent on for payment when it is
  created, is sent on again if two operators confirm it (`PaidOnceIff`, `UnderLimitPaidTwice`).
- A withdrawal is not checked against the balance (`WithdrawalOverdrawsIff`): a new user's first request can
  overdraw the account (`EmptyAccountPaysOut`).
- `balance()` wraps around outside the signed 64-bit range, and is the clamped exact balance only under the
  condition of `BalanceExactIff`: whoever asks for more than 2^63 is shown a balance nobody paid in
  (`EmptyAccountPaysOut`). That `finalized_balance()` is at most `balance()` has its own exact condition
  (`FinalizedWithinBalanceIff`).
- Nothing is ever counted as spent under a limit, so the limit bounds each request and not their sum
  (`NothingEverSpent`, `LimitBoundsEachAlone`).
- Reporting a rejected withdrawal as completed charges its amount again (`CompletionChargesFee`).
- The mnemonic of a key whose bits contain a word of index 0 ("abandon") is refused on the way
  back, because the script tests `if(byte)` (`KeyRecoveredIff`; `CountingKeyRefused` is such a key).
- The script looks a word up in an object, so the name of an inherited property passes for a word:
  23 listed words and "constructor" make a mnemonic that can be accepted and is never the one of
  the key it gives (`AcceptedIsTheKeysIff`, `ConstructorAcceptedIff`).
- A missing `currency_to` is inserted into the wallet's balances with the wrong sign
  (`ProcessOrderReconciledIff`, `ConfirmationReconciledIff`); seven ordinary updates lead there from
  a new custody (`PurchaseBreaksCache`).
- A rejecting operator's signature on an exchange order is stored among the confirmations; the
  model keeps this.
- A granted limit is the one in the last decision, not the one in the stored request; the two are the same
  if and only if the last operator repeats it (`GrantedLimitIsRequestedIff`), so one operator alone can choose
  the value two were meant to approve (`SecondOperatorChooses`).

## Model

| member | source | states |
|---|---|---|
| `Replay.RestartRebuilds` | hexstody-db/src/queries.rs:23-83 | Restart gives the live state: after any inbox (refused updates, failed inserts anywhere), reading the rows newest first up to the newest snapshot, reversing and folding succeeds and equals the worker's state, up to limit-request ids/times; hypotheses: stamps ordered, searches unambiguous |
| `Restarts.RestartsAreInvisible` | hexstody-hot/src/runner.rs:314-349 | A custody stopped and started again any number of times, anywhere between two updates, against one that never stops: no restart fails, and table, results sent and state are the same (up to limit-request ids/times), though every process meets its own ids, clocks and search results; stamps ordered, searches unambiguous |
| `Restarts.ServeAlike` | hexstody-db/src/lib.rs:38-65 | Two workers with equivalent states and equal tables refuse, store and answer the next update alike |
| `Replay.ReplayRebuilds` | hexstody-db/src/state/mod.rs:573-584 | Folding the whole persisted log succeeds and gives the worker's state for any fresh ids, clocks and admissible search results the fold meets; after the first update the time stamp agrees too, at the precision the table keeps |
| `Replay.WorkerFoldsItsLog` | hexstody-db/src/lib.rs:38-65 | Invariant of the copy, apply, store, commit loop: the committed state is always the fold of exactly the stored updates |
| `Replay.FoldsAgree` | hexstody-db/src/state/mod.rs:575-584 | Two folds of one log agree if they start equivalent or the log starts with a snapshot |
| `Replay.StepSame` | hexstody-db/src/state/mod.rs:150-278 | No handler of the 23 reads a limit request's id or time or the old time stamp: equivalent states give the same error, or the same result and equivalent states |
| `Replay.SharedAddressDiverges` | hexstody-db/src/state/mod.rs:124-129 | Uniqueness of deposit addresses is needed: with two owners of one address, both search results are possible and lead to different states |
| `Replay.SharedTransactionDiverges` | hexstody-db/src/state/mod.rs:143-147 | Uniqueness of the completing transaction is needed: with two withdrawals completed by it, a cancel may reject either, with different resulting states |
| `Replay.SnapshotTruncationSound` | hexstody-db/src/queries.rs:48-52 | A successful fold is unchanged when everything before the newest snapshot is dropped, whatever the start state |
| `Replay.QueryStateIsCollect` | hexstody-db/src/queries.rs:80-83 | Any newest-first answer of the database, cut at the newest snapshot, reversed and folded, gives the fold of the whole log |
| `Replay.NewestFirstIsReverse` | hexstody-db/src/queries.rs:26-28 | With ordered stamps, `order by created desc` has one possible answer: the insertion order reversed |
| `Replay.NewestFirstDeterminedIff` | hexstody-db/src/queries.rs:26-28 | The insertion order reversed is the only possible answer if and only if stamps increase, but for one update stored again in a row; otherwise another answer exists |
| `Replay.LateInviteBreaksRestart` | hexstody-db/src/update/mod.rs:37-43 | A sign-up stamped no later than its invite: the committed log folds, but a possible answer of the database makes the restart fail with InviteNotFound |
| `Replay.KeptIsSuffix` | hexstody-db/src/queries.rs:31-54 | The rows kept are the suffix of the log that starts at the newest snapshot |
| `Replay.QueryUpdates` | hexstody-db/src/queries.rs:24-55 | The read loop keeps the rows up to and including the first snapshot it meets |
| `Workers.UpdateWorker.Run` | hexstody-db/src/lib.rs:30-67 | The receive loop over a mutable ledger has exactly the effect of serving the inbox; its searches are admissible |
| `Workers.UpdateWorker.ServeOne` | hexstody-db/src/lib.rs:39-62 | One turn: clone, apply, store, commit; on a refusal, a half-applied update or a failed insert nothing changes |
| `Workers.WorkerIsARun` | hexstody-db/src/lib.rs:43-50 | The worker's state and responses are those of a run of the committed updates, so every run result below holds of the worker |
| `Workers.ConfirmationSentOnce` | hexstody-db/src/lib.rs:47-51 | With fresh request ids the worker never sends the confirmation of a withdrawal twice |
| `Workers.CollectLog` | hexstody-db/src/state/mod.rs:575-584 | The fold over a mutable ledger: the final state, or the first error |
| `Workers.QueryState` | hexstody-db/src/queries.rs:80-83 | Read, reverse, fold |
| `Workers.ServeAndRestart` | hexstody-db/src/queries.rs:79-83 | One method serves an inbox, stops, reads the table back in any order the database may answer, and folds it into a new ledger; with ordered stamps and unambiguous searches that ledger holds what the worker's held |
| `ExchangeAgreement.StepKeepsAgreement` | hexstody-db/src/state/mod.rs:879-950 | Every accepted careful update keeps the three copies of an exchange in agreement: order, wallet record, incoming amount |
| `ExchangeAgreement.StepAgreesIff` | hexstody-db/src/state/mod.rs:150-278 | Exact condition, over all 23 kinds: an accepted update keeps the agreement if and only if it is careful (a request has an unclaimed id, a confirmation repeats the order, a Disable drops no account that took part in an exchange, a snapshot is in agreement) |
| `ExchangeAgreement.RequestAgreesIff` | hexstody-db/src/state/mod.rs:879-900 | An accepted request keeps the agreement if and only if no wallet record, and no order on another account, has its id |
| `ExchangeAgreement.RunKeepsAgreement` | hexstody-db/src/state/mod.rs:264-271 | The agreement holds in the state every careful run reaches; only accepted updates need be careful |
| `ExchangeAgreement.AgreesThroughoutIff` | hexstody-db/src/state/mod.rs:879-950 | Over any run the agreement holds in every state if and only if every accepted update is careful in the state it meets |
| `ExchangeAgreement.CompletedExactlyWhenRecorded` | hexstody-db/src/state/exchange.rs:135-144 | In agreement an order is Completed exactly when its record is in `exchanges`, exactly when its amount is incoming under `currency_to`, with equal contents, and nowhere else |
| `ExchangeAgreement.ConfirmationAgreesIff` | hexstody-db/src/state/mod.rs:945-950 | A confirmation keeps the agreement if and only if the decision repeats the stored order's `currency_to` and `amount_to`, because the second half trusts the decision and the first the order |
| `ExchangeAgreement.DisableAgreesIff` | hexstody-db/src/state/mod.rs:675-686 | Disabling a token keeps the agreement if and only if the account has no completed order and no incoming amount |
| `ExchangeAgreement.HalfAppliedDisagrees` | hexstody-db/src/state/mod.rs:264-269 | A confirmation whose second half fails leaves a state in disagreement: the reason the worker must discard its copy |
| `ExchangeAgreement.FirstHalfEffect` | hexstody-db/src/state/mod.rs:906-943 | The first half changes one undecided order, and on completion books that order, and nothing else in the order book |
| `Exchanges.FirstDecisionSettles` | hexstody-db/src/state/mod.rs:902-942 | With one required confirmation the first decision settles an order and no later one is accepted; the order's terms never change |
| `Exchanges.ProcessOrderReconciledIff` | hexstody-db/src/state/exchange.rs:156-160 | Booking an order keeps every cached balance equal to recomputation if and only if `currency_to` is already a key (or equals `currency_from`), or the amount is 0 or 2^63 |
| `Conservation.ConfirmationReconciledIff` | hexstody-db/src/state/mod.rs:921-924 | The same for a whole confirmation in a state with right books: it keeps the cache right if and only if the stored order's `currency_to` has a balance already (or equals `currency_from`, or the amount is 0 or 2^63) |
| `UnknownCurrency.PurchaseBreaksCache` | hexstody-db/src/state/exchange.rs:156-160 | From a new custody seven accepted updates (invite, sign-up, address, deposit, token enabled, order, confirmation), for any user, any deposit transaction, any token the wallet does not start with and any price and amount: the wallet caches the amount it paid out where its books say it owes it |
| `Exchanges.IncomingReconciledIff` | hexstody-db/src/state/exchange.rs:162-176 | A deposit report keeps the cache right if and only if it is a withdrawal, a new outpoint, or repeats the stored amount |
| `Exchanges.CancelReconciledIff` | hexstody-db/src/state/exchange.rs:178-193 | A cancel keeps the cache right if and only if the deposit is unknown or the cancel carries its stored amount |
| `Exchanges.ExchangeWallet.ProcessOrder` | hexstody-db/src/state/exchange.rs:156-160 | In-place booking of an order: new record, both balances in wrapping 64-bit arithmetic |
| `Exchanges.ExchangeWallet.ProcessIncomingBtcTx` | hexstody-db/src/state/exchange.rs:162-176 | The scan-and-replace-or-push loop over the wallet's deposits |
| `Exchanges.ExchangeWallet.CancelBtcTx` | hexstody-db/src/state/exchange.rs:178-193 | The find-and-remove loop over the wallet's deposits |
| `Conservation.ReachableHoldingsAreFunded` | hexstody-db/src/state/mod.rs:150-278 | Over every careful run of a new custody, for every currency: user balances + escrow + exchange wallet = counted user deposits + exchange deposits - non-rejected withdrawals with fees, whatever became of the cache; and the cached wallet balances are the recomputed ones modulo 2^64 throughout if and only if every accepted update keeps them |
| `Conservation.StepKeepsBooks` | hexstody-db/src/state/mod.rs:879-950 | Every accepted careful update keeps agreement and the balance between users' exchange flows and the wallet's records, and right cached balances right if and only if `KeepsCache` |
| `Conservation.StepCacheIff` | hexstody-db/src/state/exchange.rs:156-193 | Exact condition, over all 23 kinds, for an accepted update to keep every cached balance right: the bought currency has a balance already, a re-reported or cancelled exchange deposit carries its stored amount |
| `Conservation.ReconciledThroughoutIff` | hexstody-db/src/state/exchange.rs:156-193 | The same over whole careful runs, in both directions |
| `Conservation.AgreementBalances` | hexstody-db/src/state/exchange.rs:135-144 | Agreement alone implies balance: in every currency, what completed exchanges gave the users is what the wallet's records gave up (by forgetting the exchanges one at a time) |
| `Conservation.HoldingsAreFunded` | hexstody-db/src/state/user.rs:153-182 | In any state in agreement no currency was created or lost, even if the cache is wrong |
| `Conservation.OrderSettledBalanced` | hexstody-db/src/state/mod.rs:921-924 | A decision that rejects, or confirms what the order says, keeps in every currency what users' exchange flows gained equal to what the wallet's records gave up, also when both currencies are the same account |
| `Solvency.ExchangeStepsConserve` | hexstody-db/src/state/mod.rs:879-950 | Placing, confirming or rejecting an order with care leaves balances + escrow + exchange wallet unchanged in every currency, whatever the cache holds |
| `Solvency.RequestAcceptedIff` | hexstody-db/src/state/mod.rs:879-900 | An exchange request is accepted if and only if `balance()` covers it (the exact balance does, in range), and is stored undecided with the amounts and currency asked for |
| `Solvency.ExchangeDelivers` | hexstody-db/src/state/mod.rs:879-950 | A fresh request and its confirmation move the user's exact balance, in every currency, by the amount bought less the price, and the exchange wallet's books by the opposite |
| `Solvency.DisableAcceptedIff` | hexstody-db/src/state/mod.rs:654-690 | An enabled token can be disabled if and only if its exact balance is not positive (in range; in general, modulo 2^64), and is otherwise refused for its balance |
| `Solvency.RequestLowersBalance` | hexstody-db/src/state/mod.rs:883-898 | An accepted request with a fresh id, on an account whose exact balance is a signed 64-bit number, lowers `balance()` of `currency_from` by exactly `amount_from`, and keeps a non-negative exact balance non-negative |
| `Solvency.RequestsNeverOverspend` | hexstody-db/src/state/mod.rs:879-900 | No run of exchange requests by anyone, of which the accepted ones have fresh ids, drives a non-negative exact balance below zero; each account loses exactly the sum of its accepted requests |
| `Solvency.RejectionReturnsAmount` | hexstody-db/src/state/user.rs:175-178 | Rejecting an order returns exactly its amount to the exact balance |
| `Solvency.WithdrawalOverdrawsIff` | hexstody-db/src/state/mod.rs:301-343 | An accepted withdrawal with a fresh id lowers the exact balance by its amount and makes it negative if and only if it asks for more than there is |
| `Joining.EmptyAccountPaysOut` | hexstody-db/src/state/mod.rs:301-343 | Witness: invite, sign-up and one over-limit withdrawal from a new custody leave the exact balance at minus the amount; the balance reported is 0, or 2^64 minus the amount when that is above 2^63 |
| `Requests.VotesSummariseRun` | hexstody-db/src/state/mod.rs:382-469 | In every reachable state the confirmations and rejections of every stored request hold exactly the keys whose last accepted vote since its creation was Confirm, or Reject; lists duplicate-free and disjoint; tally = difference; Confirmed means exactly +2, OpRejected exactly -2 |
| `Requests.StoredAsCreated` | hexstody-db/src/state/mod.rs:301-343 | In every reachable state each stored request is one the run created under that user, currency and id, and still has the id, user, address, amount, type and time of that creation |
| `Requests.VotesSignedRun` | hexstody-db/src/state/mod.rs:382-469 | In every reachable state each stored vote carries endpoint, signature and nonce of its operator's last accepted vote on the request |
| `Requests.TwoOperatorsRunExactly` | hexstody-db/src/state/mod.rs:417-466 | With two operators the vote is exact in every reachable state: Confirmed iff both last votes are Confirm, OpRejected iff both are Reject, else the tally is between -1 and 1 |
| `UnderLimit.CreationAcceptedIff` | hexstody-db/src/state/mod.rs:301-343 | A withdrawal request is accepted if and only if its account is there and it is over the limit, or spent + amount, modulo 2^64, is at most the limit; the error names a missing user, a missing account or LimitOverflow; sent on at once if and only if under the limit |
| `UnderLimit.SentWithinLimit` | hexstody-db/src/state/mod.rs:311-327 | Over every run from a state with nothing spent, every `WithdrawalUnderlimit` emitted names an amount at most the limit its account had at that moment, without any condition on the sum |
| `UnderLimit.NothingEverSpent` | hexstody-db/src/state/mod.rs:150-278 | No update of any kind ever counts anything as spent: an invariant of every run |
| `UnderLimit.LimitBoundsEachAlone` | hexstody-db/src/state/mod.rs:311-327 | So the limit bounds each request and not their sum: any number of requests, each within it, are all accepted and all sent on |
| `UnderLimit.LimitWasGranted` | hexstody-db/src/state/mod.rs:744-810 | In every reachable state of a custody that starts without users, a limit above zero is one that an operator's accepted confirmation named for that very account |
| `UnderLimit.PaidWithinGranted` | hexstody-db/src/state/mod.rs:311-327 | So every amount sent on without a vote is zero, or at most a limit that an accepted confirmation named for that account before |
| `UnderLimit.SentWithinLeft` | hexstody-db/src/state/mod.rs:311-327 | From any state: what a step sends on for being under the limit fits into what is left of it, while spent + amount stays below 2^64 |
| `UnderLimit.ClearingGivesRoom` | hexstody-db/src/state/mod.rs:812-821 | After clearing a span, an account with that span accepts exactly the amounts up to its limit, and any other account exactly what it accepted before |
| `Settlement.CompletionChargesFee` | hexstody-db/src/state/mod.rs:612-633 | A completion report charges exactly the fee it names to a request that was in progress or confirmed; to a rejected one it charges the amount again as well |
| `Settlement.CompletionIsFound` | hexstody-db/src/state/mod.rs:143-147 | From then on the search by that transaction finds that request |
| `Settlement.NodeRejectionReturns` | hexstody-db/src/state/mod.rs:635-652 | The node's refusal gives back exactly what the request withheld, amount and fee |
| `Settlement.CancelReturnsWithdrawal` | hexstody-db/src/state/mod.rs:538-571 | Cancelling the transaction that completed one withdrawal rejects it and gives back, deposits apart, its amount and fee |
| `Settlement.OtherCancelKeepsWithdrawals` | hexstody-db/src/state/mod.rs:538-571 | A cancel of a transaction that completed no withdrawal changes no withdrawal |
| `Requests.ConfirmedAtMostOnce` | hexstody-db/src/state/mod.rs:435-437 | Over every run with fresh ids `WithdrawConfirmed(id)` is emitted at most once, ids stay unique, and no announced request is ever in progress again |
| `Payments.PaidOnceIff` | hexstody-db/src/state/mod.rs:382-469 | Over every run with fresh ids each request is sent on for payment (confirmed or under the limit) at most once if and only if the run has no Confirm by a new key on a request under the limit whose tally is one short of the threshold (two short if the key switches from Reject) |
| `Payments.ConfirmsUnderLimitIff` | hexstody-db/src/state/mod.rs:417-441 | That guard, read off the state and the vote before it, holds if and only if the vote emits the confirmation of a request under the limit |
| `Payments.UnderLimitPaidTwice` | hexstody-db/src/state/mod.rs:311-327 | Any accepted request under the limit, confirmed by any two operators, is sent on for payment twice |
| `Requests.DecidedRequestsAreFrozen` | hexstody-db/src/state/mod.rs:396-416 | Once a request left InProgress, no run of votes, completions, node rejections or cancels changes its lists or returns it to InProgress |
| `Requests.StepEvolves` | hexstody-db/src/state/mod.rs:150-278 | Every update of every kind evolves every stored request in one of three ways only: not at all, a verdict of the node, or one accepted vote on exactly that request |
| `Requests.ScanAgreesWithLookup` | hexstody-db/src/state/mod.rs:599-610 | With unique ids the scan over all users finds exactly the request keyed lookup finds, under the user and currency it names itself |
| `Requests.StatusSetExactly` | hexstody-db/src/state/mod.rs:612-652 | The triple update loops change the status of the requests under that id and nothing else in the state |
| `Requests.AnnouncementConfirms` | hexstody-db/src/state/mod.rs:171-175 | An emitted confirmation names a request that was undecided before the step and is Confirmed after it |
| `Withdrawals.CastVote` | hexstody-db/src/state/mod.rs:382-469 | The imperative vote: duplicate checks, `retain`, `push`, comparison with the threshold |
| `Withdrawals.Retain` | hexstody-db/src/state/mod.rs:427-429 | The filter loop keeps exactly the decisions signed by other keys, in order |
| `Withdrawals.VoteMovesKey` | hexstody-db/src/state/mod.rs:418-465 | An accepted vote puts the voter's key on exactly one side and keeps the lists duplicate-free, disjoint and matching the tally |
| `Withdrawals.VoteFrame` | hexstody-db/src/state/mod.rs:431-464 | A vote touches status and lists only, is accepted only in progress, and reports confirmation exactly when it confirms |
| `Withdrawals.VoteAcceptedIff` | hexstody-db/src/state/mod.rs:382-469 | A vote is accepted if and only if the request is undecided and the operator is not already on that side; the error tells the four refusals apart |
| `Withdrawals.QuorumMissedIff` | hexstody-db/src/state/mod.rs:434-441 | An accepted confirmation that puts confirmations two or more ahead fails to confirm if and only if the tally was already at least two, or was one and the voter switched from Reject (the test is for equality) |
| `Withdrawals.RejectionMissedIff` | hexstody-db/src/state/mod.rs:444-466 | The mirror image: a rejection two or more ahead fails to reject if and only if the tally was already at most -2, or was -1 and the voter switched from Confirm |
| `Withdrawals.ThreeOperatorsCanMissQuorum` | hexstody-db/src/state/mod.rs:434-439 | A concrete history of three operators ending with three confirmations, no rejection, and status InProgress(3) |
| `Runs.ReachableFinalizedWithinBalance` | hexstody-db/src/state/user.rs:153-214 | In every reachable state, while the settled sum is at least -2^63 and the counted one below 2^63, `finalized_balance() <= balance()` and both equal the exact clamped sums |
| `Runs.ReachableLimitRequest` | hexstody-operator/src/api/mod.rs:319-336 | In every reachable state a listed limit request names its user and a currency the user holds, so the `unwrap` cannot fail; it is undecided, counters equal list lengths, sides at most one apart |
| `Runs.LimitTakesEffect` | hexstody-db/src/state/mod.rs:744-810 | A decision changes a limit only as the confirmation that brings distinct confirming keys two ahead; the limit set is the decision's, and the request is gone; otherwise the account is untouched |
| `Runs.GrantedLimitIsRequestedIff` | hexstody-db/src/state/mod.rs:763-784 | The limit granted is the one the user asked for if and only if the granting decision repeats it |
| `Runs.SecondOperatorChooses` | hexstody-operator/src/api/mod.rs:355-384 | Witness: after a request for any limit and one operator's confirmation, a second operator's confirmation sets the limit that operator names |
| `Runs.LimitVoteCounts` | hexstody-db/src/state/mod.rs:744-810 | Both sides alike: a decision is accepted if and only if its operator is not on its side yet; it removes the request if and only if it brings its side two ahead; until then its signature joins that side, the other stays; a rejection changes no account |
| `Runs.LimitAskedIsListed` | hexstody-db/src/state/mod.rs:702-727 | A limit request is accepted if and only if the account is there, and is listed with the limit asked for and no votes; no limit and no other request changes |
| `Runs.LimitCancelDrops` | hexstody-db/src/state/mod.rs:729-742 | A cancel drops the request of that currency and changes no other request and no account |
| `Limits.GrantNeedsTwoOperators` | hexstody-db/src/state/mod.rs:763-784 | No history of decisions on a new request grants it without confirmations from two different operators |
| `Limits.DecideLimitKeepsOk` | hexstody-db/src/update/limit.rs:39-52 | A decision is refused exactly for a repeated signer on that side, and otherwise keeps the request well formed or settles it with the sides exactly two apart |
| `Invariants.StepKeepsOk` | hexstody-db/src/state/mod.rs:150-278 | Every accepted update keeps, for every user and account: stored names equal map keys, votes summarised, orders settled by one signature, deposits non-negative and one per outpoint, limit requests only for held currencies |
| `Frames.StepFrame` | hexstody-db/src/state/mod.rs:150-278 | For all 23 kinds: which accounts an accepted update may open, close or change, in which of their seven parts; addresses are only added, `spent` never grows, a new account is empty |
| `Admission.InviteAdmitsOne` | hexstody-db/src/state/mod.rs:281-298 | Over every run two sign-ups on one invite are both accepted only if an accepted update generated the invite again (or a snapshot listed it) in between |
| `Admission.SignupAcceptedIff` | hexstody-db/src/state/mod.rs:281-298 | A sign-up is accepted if and only if the name is free and the invite open; it adds that user, with that login, and changes no other |
| `Admission.AddressIsKept` | hexstody-db/src/state/mod.rs:472-495 | Over every run an address given to an account is found to be its user's in every later state: for good in Bitcoin and Ether, for a token while it is enabled |
| `Admission.AddressesStay` | hexstody-db/src/state/mod.rs:150-278 | While an account stays open no update of any kind removes or reorders its addresses |
| `Admission.AddressAcceptedIff` | hexstody-db/src/state/mod.rs:472-495 | An address is accepted if and only if the account is there and does not have it; it then has exactly one more |
| `Settings.LastSettingStands` | hexstody-db/src/state/mod.rs:823-877 | In every reachable state each of six settings of a user is the one the last accepted update that names it wrote, or the sign-up did |
| `Settings.StepSettings` | hexstody-db/src/state/mod.rs:150-278 | For all 23 kinds: an accepted update writes exactly the settings it names, of the user it names |
| `Settings.LastBlockStands` | hexstody-db/src/state/mod.rs:150-278 | The best block known is the last one reported, whatever else the run does |
| `Settings.StepRegisters` | hexstody-db/src/state/mod.rs:150-278 | Best block, wallet addresses and time stamp after an accepted update: changed only by their own kind, to what it says |
| `Accounts.FinalizedWithinBalance` | hexstody-db/src/state/transaction.rs:23-42 | No transaction is both finalized and conflicted, so the finalized balance is at most the balance; no wrap-around while the settled sum is at least -2^63 and the counted one below 2^63 |
| `Accounts.FinalizedWithinBalanceIff` | hexstody-db/src/state/user.rs:153-214 | `finalized_balance() <= balance()` for all sums, in range or not: the exact condition on their residues |
| `Accounts.BalanceExactIff` | hexstody-db/src/state/user.rs:153-182 | `balance()` is the exact balance clamped at zero if and only if that is below 2^63 and does not wrap around from below -2^63 to a positive number |
| `Deposits.BtcDepositAdds` | hexstody-db/src/state/transaction.rs:23-42 | On the transaction's own fields: a Bitcoin deposit adds its amount to the exact balance if and only if it has a confirmation, or no conflict, or amount 0 (otherwise nothing), and to the settled balance if and only if it has four confirmations or amount 0 |
| `Deposits.EthDepositAdds` | hexstody-db/src/state/transaction.rs:23-42 | The Ethereum counterpart: counted unless its confirmations are negative, settled from four on |
| `Accounts.ComputeBalance` | hexstody-db/src/state/user.rs:153-214 | Both balance functions computed with wrapping u64/i64 sums and casts equal the exact sum wrapped once and clamped at zero |
| `Accounts.WrappingSum` | hexstody-db/src/state/user.rs:166-178 | A wrapping sum over a hash map's values does not depend on iteration order |
| `Accounts.UpdateBtcTx` | hexstody-db/src/state/user.rs:238-252 | The replace-or-push loop over an account's transactions |
| `Accounts.CancelBtcTx` | hexstody-db/src/state/user.rs:254-268 | The find-and-remove loop over an account's transactions |
| `Transactions.LastEventWins` | hexstody-db/src/state/user.rs:238-268 | After any history of updates and cancels the list holds, at each outpoint, what the last effective event there left, and no outpoint twice |
| `Transactions.ReorderingKeepsBalance` | hexstody-db/src/state/user.rs:238-268 | Any reordering of updates and cancels that keeps the order per outpoint gives the same map of deposits and the same balance sum |
| `Transactions.CancelUndoesFirstSeen` | hexstody-db/src/state/user.rs:250-267 | Cancelling a deposit seen for the first time restores the list itself |
| `Transactions.UpsertRefines` | hexstody-db/src/state/transaction.rs:72-76 | An update overwrites exactly its own outpoint (withdrawals nothing) and keeps outpoints distinct |
| `Transactions.RemoveRefines` | hexstody-db/src/state/transaction.rs:78-82 | A cancel clears exactly its own outpoint and keeps outpoints distinct |
| `Ledgers.Ledger.ApplyUpdate` | hexstody-db/src/state/mod.rs:150-278 | The mutable ledger reaches exactly the state, result or error of the transition function; on an error nothing changed, except after a half-applied exchange decision |
| `Ledgers.Ledger.Clone` | hexstody-db/src/lib.rs:42 | A deep copy, sharing no mutable object |
| `Ledgers.Ledger.FindUserAddress` | hexstody-db/src/state/mod.rs:124-129 | Some user owning the address, or none exists |
| `Ledgers.Ledger.FindWithdrawalByTxId` | hexstody-db/src/state/mod.rs:143-147 | Some request completed by the transaction, or none exists |
| `Ledgers.FindCompletedRequest` | hexstody-db/src/state/user.rs:220-236 | The same search inside one account |
| `Ledgers.Ledger.GetWithdrawalRequest` | hexstody-db/src/state/mod.rs:599-610 | The triple scan returns a stored request of that id, or there is none |
| `Ledgers.Ledger.WithSignup` | hexstody-db/src/state/mod.rs:281-298 | Existing name and unknown invite refused in that order; otherwise the user is added and the invite used up |
| `Ledgers.Ledger.WithNewWithdrawalRequest` | hexstody-db/src/state/mod.rs:301-343 | Limit check for under-limit requests with wrapping sum; the request is stored in progress with no votes |
| `Ledgers.Ledger.WithWithdrawalRequestDecision` | hexstody-db/src/state/mod.rs:345-469 | Lookup errors, vote errors, or the voted request written back |
| `Ledgers.Ledger.SetRequestStatus` | hexstody-db/src/state/mod.rs:612-652 | Three nested loops over users, accounts and requests |
| `Ledgers.Ledger.WithDepositAddress` | hexstody-db/src/state/mod.rs:472-495 | Appends a new address or refuses one already on the account |
| `Ledgers.Ledger.WithBtcTxUpdate` | hexstody-db/src/state/mod.rs:498-524 | Routes a transaction to the exchange wallet, the owner found, or nowhere |
| `Ledgers.Ledger.WithBtcTxCancel` | hexstody-db/src/state/mod.rs:527-571 | Routes a cancel likewise and node-rejects the withdrawal the transaction completed |
| `Ledgers.Ledger.UpdateTokens` | hexstody-db/src/state/mod.rs:654-690 | Enable adds an empty account; Disable refuses a positive balance and drops account and limit request |
| `Ledgers.Ledger.InsertLimitsReq` | hexstody-db/src/state/mod.rs:702-727 | Stores a new limit request under the currency, replacing an older one |
| `Ledgers.Ledger.CancelLimitChange` | hexstody-db/src/state/mod.rs:729-742 | Drops the limit request of a currency, ignoring the id |
| `Ledgers.Ledger.WithLimitChangeDecision` | hexstody-db/src/state/mod.rs:744-810 | The limit vote carried out in place |
| `Ledgers.Ledger.ClearLimits` | hexstody-db/src/state/mod.rs:812-821 | Resets `spent` on every account of every user whose limit has the span |
| `Ledgers.Ledger.AddExchangeRequest` | hexstody-db/src/state/mod.rs:879-900 | Refuses when the computed balance is below the amount, otherwise stores the order |
| `Ledgers.Ledger.ApplyExchangeDecision` | hexstody-db/src/state/mod.rs:906-943 | First half of a decision, in place |
| `Ledgers.Ledger.AddIncomingExchange` | hexstody-db/src/state/mod.rs:945-950 | Second half of a decision, in place |
| `Ledgers.Ledger.WithExchangeDecision` | hexstody-db/src/state/mod.rs:264-269 | Both halves; when the second fails the first is left behind |
| `Ledgers.Ledger.UpdateUserConfig` | hexstody-db/src/state/mod.rs:833-855 | Each present field replaces the stored one |
| `Quorum.AnnouncedIsAccepted` | hexstody-hot/src/worker.rs:37-70 | End to end, from a custody without requests and over every run with fresh ids: a request announced as confirmed, scanned for in any later state of the run and forwarded, is accepted by the Bitcoin module at threshold two if its confirmations verify; the scan misses it only if it went away with its account |
| `Quorum.PaidAsRequested` | hexstody-hot/src/worker.rs:42-62 | The payment forwarded is the payment requested, over every run with fresh ids: for a request created, announced, found and with verifying confirmations, the signed data carries the id, user, address and amount of its creation, and the Bitcoin module's verdict is to send exactly that amount to that address if it is a parsable Bitcoin address (else that it is none) |
| `Quorum.ForwardedAreVoters` | hexstody-hot/src/worker.rs:43-52 | In every reachable state the confirmations and rejections forwarded for a request are exactly the signatures, with their nonces, of the operators' own last votes on it since its creation, each on its side |
| `Quorum.AcceptanceMeansQuorum` | hexstody-btc/src/api/public.rs:115-161 | Anything the ledger built is accepted if and only if the listed operators with a stored confirmation that verifies for the confirm endpoint and exactly this id, user, address, time and amount outnumber, by the threshold, those with a stored rejection that verifies for the reject endpoint |
| `Quorum.LedgerQuorumSuffices` | hexstody-btc/src/api/public.rs:159-161 | The ledger's difference of two, with verifying confirmations, passes the second check |
| `Quorum.WithdrawBtc` | hexstody-btc/src/api/public.rs:105-251 | Forbidden exactly below the threshold; payment of exactly the requested amount exactly for a parsable Bitcoin address |
| `Quorum.CountValid` | hexstody-btc/src/api/public.rs:133-154 | The counting loop counts exactly the signatures by listed operators that verify |
| `Pipeline.DeliveredExactlyOnceInOrder` | hexstody-btc/src/worker.rs:19-44 | For every interleaving of scans, polls, sends and receipts: applied, queued, polled and buffered events concatenate to the scanned ones; and the Bitcoin updates applied so far report, in order and one for one, the first of the scanned events that are due (every cancel, every update of a deposit): the same cancel, or the same txid, vout, address, confirmations, conflicts, and amount below 2^63 |
| `Pipeline.QuiescentMeansDelivered` | hexstody-hot/src/worker.rs:195-251 | When nothing is in flight, the Bitcoin updates applied and the scanned events that are due are in order-preserving bijection, each update reporting its event field by field |
| `Pipeline.BodiesReport` | hexstody-hot/src/worker.rs:229-249 | What a sequence of events is sent as: exactly one update for each cancel and each deposit, in order, reporting it field by field, and none for the rest |
| `Pipeline.BtcPath.NodeTurn` | hexstody-btc/src/worker.rs:19-44 | A turn of the node worker on the scan state is the scan move with the events of the node's answer, and keeps delivery exact |
| `Pipeline.BtcPath.HotTurn` | hexstody-hot/src/worker.rs:195-251 | A turn of the hot wallet (poll, then send everything) is the poll move, the best-block send if it changed, and one send per event; what it adds to the channel delivers every event polled that is due |
| `Pipeline.BtcPath.Receive` | hexstody-db/src/lib.rs:38 | The update worker's receipt is the apply move, first in first out |
| `Pipeline.DrainSendsAll` | hexstody-hot/src/worker.rs:229-249 | Sending a batch event by event queues its deposit updates and cancels, in order, one for one, and nothing else |
| `Pipeline.ScanState.Scan` | hexstody-btc/src/worker.rs:19-44 | One turn of the node worker: events appended, block and height moved only when something changed, nothing on a node error |
| `Pipeline.ScanState.Poll` | hexstody-btc/src/api/public.rs:54-61 | Hands over the whole buffer and empties it |
| `Pipeline.ScanFrom` | hexstody-btc/src/worker.rs:83-104 | Cancels of removed entries first, then updates, each in the node's order |
| `Pipeline.ScannedOneForOne` | hexstody-btc/src/worker.rs:83-184 | The events of an answer: a cancel of exactly each removed entry with a direction, an address and a non-negative amount, then an update of exactly each entry with a direction, an address and non-negative confirmations, in order, with the entry's own fields |
| `Deposits.ReceivedIsApplied` | hexstody-btc/src/worker.rs:46-78 | End to end, whatever the interleaving: an entry the node ever listed as received has been applied by the ledger as a record of that entry once nothing is in flight |
| `Deposits.ReceivedIsCredited` | hexstody-db/src/state/mod.rs:498-524 | And applying it credits the only holder of the address, and nobody else, with the entry at its outpoint; first seen, and confirmed or free of conflicts, it raises the exact balance by exactly its amount |
| `Deposits.DepositCredited` | hexstody-db/src/state/mod.rs:498-524 | A deposit reported at an address with one holder: it is what is at its outpoint, other outpoints and all other accounts are as they were, and the balance moves by what it is worth less what was there |
| `Deposits.CancelDropsDeposit` | hexstody-db/src/state/mod.rs:527-571 | An accepted cancel at an address with one holder clears that outpoint on that holder's account; every other outpoint and every other account's transactions are unchanged |
| `Deposits.DepositsAreReports` | hexstody-db/src/state/mod.rs:498-571 | Over every run a user's Bitcoin transactions are the run's reports and cancels at the addresses the user holds at the time, recorded in order, whatever the other 21 kinds of update do in between |
| `Deposits.LastReportWins` | hexstody-db/src/state/mod.rs:498-571 | In every reachable state of a new custody each outpoint of a user's deposits holds what the last effective report about that user left there, and no outpoint occurs twice |
| `Deposits.ReportOrderIrrelevant` | hexstody-db/src/state/user.rs:238-268 | Two runs of a new custody that tell the same story of each outpoint give the user the same deposits and the same counted sum |
| `Deposits.WalletDepositRouted` | hexstody-db/src/state/mod.rs:498-506 | A deposit at the exchange wallet's address is recorded in the wallet at its outpoint, and touches no user |
| `Deposits.WithdrawalNotRecorded` | hexstody-db/src/state/transaction.rs:84-103 | A reported withdrawal converts to a negative amount, which leaves every list of deposits as it is |
| `Pipeline.ProcessBtcEvents` | hexstody-hot/src/worker.rs:214-251 | A changed best block first, then exactly one update for each event that is due, in order, reporting it field by field |
| `Mnemonic.KeyRecoveredIff` | hexstody-public/static/scripts/crypto.js:67-106 | A 32-byte key is recovered from its mnemonic if and only if none of its 24 word indices is 0; otherwise the first word of the list is refused (the script tests `if(byte)`), whatever names are inherited |
| `Mnemonic.AcceptedIsTheKeysIff` | hexstody-public/static/scripts/crypto.js:83-106 | An accepted mnemonic is the one the script writes for the key it gives if and only if all its words are in the list, none being the name of an inherited property |
| `Mnemonic.ConstructorAcceptedIff` | hexstody-public/static/scripts/crypto.js:88-106 | With "constructor" after any 23 listed words but the first: accepted if and only if the hash of the 32 bytes read starts with a zero byte, and never the mnemonic of the key given |
| `Mnemonic.LowKeyRefused` | hexstody-public/static/scripts/crypto.js:90 | Every key whose first eleven bits are zero is refused, whatever the hash |
| `Mnemonic.CountingKeyRefused` | hexstody-public/static/scripts/crypto.js:90 | The key of bytes 0, 1, ..., 31 is one of them |
| `Mnemonic.BytesOfPlaces` | hexstody-public/static/scripts/crypto.js:59-65 | On listed words, what the script reads back (`parseInt` of each piece, stored modulo 256) is the plain repacking of their places |
| `Mnemonic.EveryKeySurvivesRepacking` | hexstody-public/static/scripts/crypto.js:69-75 | Below the word table every key, with any hash, comes back with its checksum |
| `Mnemonic.BytesRoundTripIff` | hexstody-public/static/scripts/crypto.js:51-65 | Bytes to 11-bit words and back is the identity if and only if the length is a multiple of 11; words are then below 2048 |
| `Mnemonic.WordsRoundTripIff` | hexstody-public/static/scripts/crypto.js:51-65 | 11-bit words to bytes and back is the identity if and only if the length is a multiple of 8 |
| `Mnemonic.RepackRoundTripIff` | hexstody-public/static/scripts/crypto.js:42-65 | The same for any two digit widths: exactly when the bits fill whole words |
| `Mnemonic.FillThenParse` | hexstody-public/static/scripts/crypto.js:42-49 | Printing to n digits with leading zeroes is undone by parsing, for every number below 2^n |
| `Mnemonic.ToUint11Array` | hexstody-public/static/scripts/crypto.js:51-57 | The accumulate, cut, parse loop from bytes to words; nothing on an empty input, where the script throws |
| `Mnemonic.FromUint11Array` | hexstody-public/static/scripts/crypto.js:59-65 | The same from words to bytes, also when a word stands for an inherited property, whose text is then cut and parsed; nothing when there is no piece, where the script throws |
| `Mnemonic.PrivateKeyToMnemonic` | hexstody-public/static/scripts/crypto.js:67-81 | 24 words, at the places of the key and its checksum byte |
| `Mnemonic.MnemonicToPrivateKey` | hexstody-public/static/scripts/crypto.js:83-106 | Length, word and checksum errors in that order, or the key; inherited names are a parameter and are taken for words |

## Left out

- HTTP routes, clients, SQL, configuration, logging, Vue components: input and output.
- Cryptography and JSON: a log row is the update value itself; signatures and the hash are parameters.
- The Ethereum module and the ticker cache: floating-point amounts, node calls, caching of outside prices.
- Cold-wallet transfers and the under-limit withdrawal endpoint: one branch each, no quorum.
- JavaScript objects: which names the word table inherits and how their values print are parameters; the text of "constructor" is the one common engines print.
- Reading the key's hexadecimal form and building the key object in the mnemonic functions: the model starts from the 32 bytes.
- The user fields `withdrawal_requests` and `completed_requests`: no update reads or writes them.
- Sixteen-bit tallies: `i16` counters are integers here; they count distinct operator keys and would wrap only beyond 32767 of them.
- 64-bit overflow: modelled as the wrap-around of a release build; the panic of a debug build is not.
- ReplayRebuilds: times are whole microseconds in the model, as the table keeps them; the finer digits of the live clock, which no update reads, are lost on a restart and are not modelled. The same goes for the other results about reading the log back.
- Stored rejections of exchange orders: nothing is claimed, since the code never fills them.
- Liveness of the event pipeline: safety only, with no transport loss; the sender holds the state lock while sending on a bounded channel.
- Aliasing inside the state: users and accounts are owned by value in hash maps, so they are values here; only the ledger, the exchange wallet, the worker and the scan state are objects.
