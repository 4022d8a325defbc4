# Verification of the payment backend

A Dafny model of the wallet ledger, its idempotency keys, the Paystack webhook pipeline, the rate limiter, the
refresh-token rotation and the wallet cache, with proofs of what they guarantee. `dafny verify dfyconfig.toml`
checks the whole project.

## What is modelled

**Ledger.** `Tables` holds users, wallets, assets and the transaction log with the constraints of the schema:
the `non_negative_balance` check, unique references, unique (wallet, currency), one wallet per user, unique account
numbers, foreign keys. A batch is a list of statements run in order, each checked at once, undone as a whole at the
first failure. `Calls` describes a repository call as it runs: reads first, then one batch, with any other call free
to move in between; a call remembers only what it read. `Book` is the ledger one would like to have: a map of
balances and operations that are single updates. `Integrity` and `Refinement` prove that the first is the second.

**Backend.** `App` is one transition system: any number of client calls with idempotency keys, direct calls
(withdrawal debits, verifications, registration inserts) and webhook handlers in flight, plus the queue and its one
worker. Which call moves, which Redis or database answer is lost, and which key vanishes is chosen by the event.
`AppCore` proves validity and linearizability of all runs, `AppAttempts` its worker's side; `AppLedger`
reconciliation, conservation and once-only references; `AppJournal` which operation wrote which row and when an
operation commits; `AppValue` the priced total; `AppKeys` the idempotency keys; `AppWebhooks` the lock and queue
protocol; `AppRefunds` and `AppRevival` the refunds; `AppCollision` a payment that is swallowed. `Journal`, `Reconcile`, `JobQueue`, `Webhooks`, `Requests`,
`AppOps` and `AppScripts` are the log rows, the ledger sums, the queue, the event dispatch, the keyed requests, the
operations in flight and the single calls that they use.

**Services run alone.** `Service` gives each request its effect on database, keys and wallet cache when nothing runs
beside it. `Repository` (WalletRepository.dfy), `Services`, `Auth` (AuthService.dfy) and the class in `RateLimit` are
the imperative forms: classes whose fields are the tables, keys, cache, queue, counter and tokens, with the loops of
the Go code, each method proved to do what the specification function says.

`Effects` says what each request does as its caller sees it (answers, money moved, rows logged) without naming the
operations of the ledger, and `AppVerdicts` what concurrent callers are told.

**Timed stores.** `RateLimit` has INCR and EXPIRE as separate steps and one counter shared by routes with different
limits. `RefreshTokens` takes each login, rotation and revocation as one step; the chains are recorded as history.
`Staleness` interleaves cache lookups, fetches, fills, writes and invalidations of one user's wallet.

Where the code and its documentation disagree, the code is followed: README.md:22 announces a token bucket, the code
is a counter with an expiry set by its first increment. So up to 2L - 1 requests pass within one window length, and
at most L in windows that do not cut into an older life of the counter.

Hypotheses are named in the lemmas. Five promises do not hold of all runs, and their exact conditions are
proved: reconciliation and conservation (`AppLedger.ReconciledExactly`, `Reconcile.MarkSuccessExact`), one
refund per withdrawal (`AppRefunds.RefundsAccount`), the success of a rotation
(`RefreshTokens.RotationFailsExactly`), the credit of a processed payment (`AppJournal.PaidExactly`, with a
failing run in `AppCollision`) and the agreement of the cache (`Service.CacheAgreesExactly` for requests one at
a time, `Staleness.ClosedAgreesExactly` and `Staleness.AgreesThroughout` under interleaving). What spoils the
first two is a transfer.success processed for a row already refunded; it cannot happen when each transfer code
travels with one non-empty reference whose lock is neither lost nor taken by a client
(`AppRefunds.BehavedNeverRevives`), and it does happen when bodies carry no reference (`AppRevival`).
`AppLedger.OneCommitPerKind`, `AppLedger.CreditedAtMostOnce` and `AppJournal` trust no lock.

Amounts are reals of any sign. A row's id is its position in its table.

## Model

| member | source | states |
|---|---|---|
| `Integrity.UpsertKeeps` | internals/repository/wallet_repo.go:91-102 | An upsert that passes its constraints keeps every constraint of the schema, forgets no row, leaves the log alone, and afterwards the (wallet, currency) row exists |
| `Integrity.InsertRowKeeps` | prisma/migrations/20251222104809_add_balance_check/migration.sql:84 | A log insert keeps all constraints: references stay unique and the logged row has its asset row |
| `Integrity.MarkAllKeeps` | internals/repository/wallet_repo.go:305-309 | The status update by gateway reference always succeeds, keeps all constraints and changes nothing of a row but its status |
| `Integrity.RegisterKeeps` | internals/repository/user_repository.go:39-76 | Each of the three registration inserts keeps all constraints and the log |
| `Refinement.AssetOfUser` | internals/repository/wallet_repo.go:43-48 | The first asset of a currency over a wallet join is the asset of the user's only wallet; none is found exactly when the user has no wallet or the wallet no such asset |
| `Refinement.CallOkStable` | internals/repository/wallet_repo.go:107-240 | Everything a call read (asset id, wallet, recipient, row to refund) is still true after any change other calls can make between its reads and its batch |
| `Refinement.ReadRefines` | internals/repository/wallet_repo.go:107-303 | A call that ends at a read (missing asset, low balance, no recipient, self transfer, unknown user, nothing to refund) answers what the atomic operation answers at that moment; any other read leaves true facts |
| `Refinement.InsertUpsertAbs` | internals/repository/wallet_repo.go:80-105 | CreditWallet's batch is one map update, from zero when the wallet has no such asset yet, and one row; it is refused as a duplicate before the balance is looked at |
| `Refinement.InsertUpsertKeeps` | internals/repository/wallet_repo.go:80-105 | The same batch keeps all constraints, although halfway the logged row may lack its asset |
| `Refinement.UpsertInsertAbs` | internals/repository/wallet_repo.go:253-275 | CreditWalletByEmail's batch is the same update with the opposite order of refusals |
| `Refinement.FourAbs` | internals/repository/wallet_repo.go:117-151 | Debit, upsert-credit and two inserts with immediate checks and rollback equal one update of the balance map and two rows, or exactly one refusal; also when both legs are one row |
| `Refinement.SwapSimulates` | internals/repository/wallet_repo.go:107-156 | The submitted swap batch is the atomic swap of that moment, reply and effect included, also for from == to and for a new destination asset |
| `Refinement.TransferSimulates` | internals/repository/wallet_repo.go:158-212 | The submitted transfer batch is the atomic transfer; one wallet per user keeps its rows apart |
| `Refinement.SubmitSimulates` | internals/repository/wallet_repo.go:80-309 | Every batch, committed or refused, is the atomic operation of the moment it runs, on the ledger as it is then |
| `Refinement.SubmitKeeps` | internals/repository/wallet_repo.go:80-309 | Every batch keeps balances non-negative, all unique keys, owners and logged facts, and a posted one logs as many rows as its operation has references |
| `Journal.SubmitLogsLegs` | internals/repository/wallet_repo.go:80-240 | A posted batch logs exactly the rows of its operation, each with its reference, amount, currency and type, booked on the wallet of the right party; any other batch logs nothing |
| `Refinement.RefundTarget` | internals/repository/wallet_repo.go:292-297 | The asset row a refund increments always exists |
| `Service.PerformIsAtomic` | internals/repository/wallet_repo.go:80-309 | A repository call nothing interrupts, reads and batch together, is the atomic operation |
| `Effects.FundServed` | internals/service/wallet_service.go:89-113 | A client deposit: which answer in which case, in the order of the checks; served, the user's balance rises by the amount and nothing else changes, and one deposit row is logged under the key |
| `Effects.SwapServed` | internals/service/wallet_service.go:141-177 | A swap: every answer; served, the source falls by the amount asked for and the destination rises by it at the quoted rate (by itself within one currency), logged as key-OUT and key-IN |
| `Effects.TransferServed` | internals/service/wallet_service.go:179-243 | A transfer: every answer; served, the sender falls and the account's wallet rises by the amount asked for, logged as key-DEBIT and key-CREDIT; otherwise the database is unchanged |
| `Effects.NobodyServed` | internals/service/wallet_service.go:186-210 | Keyed requests of users without a wallet, unknown senders and unknown accounts are refused without effect |
| `Effects.WithdrawServed` | internals/service/wallet_service.go:287-301 | A withdrawal debit: every answer; served, the balance falls by the amount and one pending row carries amount, reference and transfer code |
| `Effects.WithdrawalIsFound` | internals/repository/wallet_repo.go:230-286 | A withdrawal is found again by the transfer code it was made with if and only if no earlier one carries the code |
| `Effects.RefundServed` | internals/repository/wallet_repo.go:282-303 | A refund: the amount of the first withdrawal under the code goes back to the wallet it left, unless it is FAILED already; the row becomes FAILED |
| `Effects.RefundRestores` | internals/repository/wallet_repo.go:214-303 | A withdrawal and then the report of its failure restore every balance and mark its row FAILED |
| `Effects.UnknownRefundServed` | internals/repository/wallet_repo.go:288-290 | A code nobody withdrew under is success without effect |
| `Effects.ConfirmServed` | internals/repository/wallet_repo.go:305-309 | A confirmation sets every row with the code to SUCCESS and changes nothing else |
| `Effects.PaymentServed` | internals/repository/wallet_repo.go:242-280 | A reported payment, by webhook or on verification: its amount reaches the payer's wallet and is logged once; a used reference is success without effect |
| `Effects.StrangerServed` | internals/repository/wallet_repo.go:244-251 | A payment of an unknown email, or of a user without a wallet, is refused |
| `Effects.GetServed` | internals/service/wallet_service.go:56-76 | A wallet read: the cached wallet if there is one, else the user's wallet as the database has it, then cached, else none |
| `Effects.BodyProcessed` | internals/service/payment_service.go:145-200 | What the worker does with each kind of body, and which are ignored: an unsuccessful charge is; an undecodable body is an error; in an outage only a failed transfer passes for processed |
| `Webhooks.DispatchExactly` | internals/service/payment_service.go:165-199 | A body leads to an operation exactly when it reports a successful charge (credit of a hundredth of the minor units), a successful transfer (confirmation) or a failed or reversed one (refund) |
| `Service.ViewExactly` | internals/repository/wallet_repo.go:35-41 | The query returns a wallet if and only if it is the user's, with its account number and exactly its asset rows, each once, in table order and as they are |
| `AppCore.RunIsValid` | prisma/migrations/20251222104809_add_balance_check/migration.sql:69-98 | On every reachable state balances are >= 0, references, (wallet, currency) pairs, emails, account numbers and wallet owners are unique, and what in-flight calls remember is true |
| `AppCore.StepRefines` | internals/repository/wallet_repo.go:80-309 | Every step of every run is invisible to the ledger or is one atomic operation on it, with the reply its call then returns |
| `AppCore.Linearizable` | internals/repository/wallet_repo.go:80-309 | Any interleaving of any number of calls equals a sequential execution of atomic operations with the same replies and the same final ledger |
| `AppCore.EachCallOnce` | internals/repository/wallet_repo.go:80-309 | That sequential execution holds each ended call of a thread exactly once, carrying its answer, and no unfinished one |
| `AppAttempts.EachAttemptOnce` | internals/pkg/redis.go:70-118 | It holds each worker attempt at most once, for the operation of the body the attempt took; and every job ever counted as processed was answered by one of its attempts: its operation has an entry that answered success, or its body asks for none, or for a refund (whose failed read passes for success) |
| `AppAttempts.IgnoredLeavesNothing` | internals/service/payment_service.go:165-199 | On every run what the worker executed was asked for by a successful charge, a successful transfer or a failed one; ignored and undecodable bodies leave no entry |
| `AppAttempts.SettlesExactly` | internals/pkg/redis.go:88-100 | An attempt gets the verdict "processed" exactly when its body is of no concern, its call ends with success at a read or at a reported batch, or the read of a refund fails |
| `AppAttempts.ProcessedIsSettled` | internals/pkg/redis.go:88-100 | On every run a job counts as processed only after such an event on it: an undecodable body never, a refund only when answered success or when its read failed |
| `Reconcile.SubmitWorth` | internals/repository/wallet_repo.go:80-303 | Under any additive valuation a committed batch moves the value of all assets by exactly the operation's delta |
| `Reconcile.SubmitLogged` | internals/repository/wallet_repo.go:80-309 | The rows the batch logs, or the status it changes, move the signed sum of the log by the same delta less the refunded withdrawals it revives; the signs are read from type, status and reference suffix |
| `Reconcile.SubmitBalanced` | internals/repository/wallet_repo.go:80-309 | A batch keeps a weighted total reconciled if and only if what it revives adds up to nothing |
| `Reconcile.BalancedIsReconciled` | internals/repository/wallet_repo.go:80-309 | Agreement of the two sums for one (wallet, currency) is exactly: the stored balance is the signed sum of its log rows |
| `Reconcile.MarkSuccessExact` | internals/repository/wallet_repo.go:305-309 | A transfer.success keeps the ledger reconciled if and only if the refunded withdrawals with its code, however many, add up to nothing in every wallet and currency |
| `Reconcile.MarkSuccessGuard` | internals/repository/wallet_repo.go:305-309 | For non-negative amounts: if and only if no refunded withdrawal of a non-zero amount carries the code |
| `Reconcile.MarkSuccessOneRow` | internals/repository/wallet_repo.go:305-309 | The same for a code that one row carries, with amounts of any sign |
| `AppLedger.RunGap` | internals/repository/wallet_repo.go:80-309 | On every run, with no proviso, a weighted total of the assets is that of the log plus all that status updates revived |
| `AppLedger.ReconciledExactly` | internals/repository/wallet_repo.go:80-309 | On every run each balance equals the signed sum of its log rows if and only if the revived withdrawals add up to nothing in every wallet and currency |
| `AppLedger.RunReconciled` | internals/repository/wallet_repo.go:80-309 | In particular each balance equals the signed sum of its log rows on every run in which no transfer.success is processed for a FAILED row |
| `AppLedger.RunPaired` | internals/repository/wallet_repo.go:187-205 | On every run the TRANSFER rows pair off as adjacent debit and credit legs with one key, equal amount and currency, different wallets |
| `Reconcile.AtomicPaired` | internals/repository/wallet_repo.go:158-212 | Every operation keeps the transfer legs paired |
| `Reconcile.TransfersCancel` | internals/repository/wallet_repo.go:187-205 | In a paired log the transfers contribute nothing to any currency |
| `AppLedger.Conservation` | internals/repository/wallet_repo.go:80-309 | The money held in a currency over all wallets is deposits plus swap-ins minus swap-outs minus withdrawals not FAILED, plus what was revived: nothing, when no transfer.success follows a refund |
| `Reconcile.SwapValue` | internals/service/wallet_service.go:148-157 | A swap at rate r moves the priced total by amountIn * (r * p(to) - p(from)): nothing at the fair rate, never up at a lower one |
| `AppValue.RequestIsFair` | internals/service/wallet_service.go:115-157 | A swap request quoted at (or below) the price ratio, or within one currency, is a value-keeping (non-increasing) operation |
| `AppOps.RunOps` | internals/service/wallet_service.go:89-243 | Any property of all operations that enter the backend holds of all operations it executes |
| `AppValue.ValueKept` | internals/service/wallet_service.go:115-177 | Every run of transfers and fairly quoted swaps, from any reachable state, keeps the priced total of all balances; with quotes at most fair it never grows |
| `AppLedger.PostedRefs` | internals/repository/wallet_repo.go:131-149 | An operation is posted only if none of its references was in the log, and afterwards all of them are |
| `AppLedger.RunRefs` | prisma/migrations/20251222104809_add_balance_check/migration.sql:84 | On every run no two committed operations share a log reference |
| `AppJournal.RunJournaled` | internals/repository/wallet_repo.go:80-309 | On every run each log row is a row of a committed operation, with its amount, currency, type and party |
| `AppJournal.UsedExactly` | prisma/migrations/20251222104809_add_balance_check/migration.sql:84 | On every run a reference is in the log if and only if some committed operation has it |
| `AppJournal.CommitsExactly` | internals/repository/wallet_repo.go:80-280 | On every run an operation that passes its wallet and balance checks commits if and only if no committed operation shares a reference with it; otherwise it changes nothing and is answered as a duplicate |
| `AppJournal.BlockedForGood` | internals/repository/wallet_repo.go:131-149 | Once a committed operation has one of its references, an operation changes nothing in any later state |
| `AppJournal.DepositBlocksSwap` | internals/repository/wallet_repo.go:131-151 | No run commits both a deposit with reference k-OUT or k-IN and the swap with key k; after the deposit the swap changes nothing in any later state |
| `AppLedger.SuffixesApart` | internals/repository/wallet_repo.go:131-205 | Suffixing a key is injective and the four suffixes never collide across keys |
| `AppLedger.OneCommitPerKind` | internals/service/wallet_service.go:89-243 | Whatever happens to the locks, a key commits at most one deposit, one swap and one transfer |
| `AppLedger.CreditedAtMostOnce` | internals/repository/wallet_repo.go:242-280 | Over webhook jobs, retries, lost locks, verifications and client deposits one reference is credited at most once |
| `AppLedger.ProcessedChargeLoggedOnce` | internals/service/payment_service.go:165-185 | Whenever a charge job ended as processed, exactly one log row has its reference |
| `AppLedger.VerifiedCreditLoggedOnce` | internals/service/payment_service.go:382-393 | Whenever a verification's credit answered nil, exactly one log row has its reference |
| `AppJournal.PaidExactly` | internals/repository/wallet_repo.go:275-279 | Once its reference is in the log, a payment was credited if and only if no other operation committed that reference |
| `AppJournal.ProcessedChargePaidExactly` | internals/service/payment_service.go:165-185 | So for every processed charge: its payer was credited if and only if no other operation took the reference |
| `AppJournal.VerifiedPaidExactly` | internals/service/payment_service.go:382-393 | And for every verification answered nil |
| `AppJournal.ProcessedChargeOwner` | internals/service/payment_service.go:165-185 | The row with the reference of a processed charge was written by one leg of exactly one committed operation, booked on that operation's party |
| `AppJournal.ProcessedChargeCredited` | internals/service/payment_service.go:165-185 | If nothing but the payment uses its reference, in any number of deliveries and verifications, that one row is the payment: its amount and currency, on the payer's wallet |
| `AppCollision.PreemptedIsSwallowed` | internals/service/payment_service.go:165-185 | From every reachable quiet state in which another operation has the reference and its lock is free, a delivery is processed without crediting the payer |
| `AppCollision.SwallowedIsReachable` | internals/service/wallet_service.go:89-113 | Some run from the empty backend does so: a client deposit keyed by the payment's reference, its key expired, then the webhook |
| `AppKeys.PostedIsDone` | internals/service/wallet_service.go:101-111 | A client batch that answers success has logged exactly the rows of its operation; any other answer leaves the database as it was |
| `AppVerdicts.RunVerdicts` | internals/service/wallet_service.go:89-113 | On every run that reports results to it, a client call is told success, duplicate or failure according to what became of its operation |
| `AppVerdicts.SucceededExactly` | internals/service/wallet_service.go:89-113 | On every such run a finished client call was told success if and only if its operation was committed |
| `AppVerdicts.LockDecides` | internals/service/wallet_service.go:90-93 | A client that finds its key free goes to work, any other is told duplicate without effect; one cut off before its batch goes on to release its key |
| `AppVerdicts.LostResult` | internals/service/wallet_service.go:101-108 | A batch whose result is lost is an error to its caller, committed or not |
| `AppKeys.OneOwnerOneCommit` | internals/service/wallet_service.go:89-243 | With a lock that does not expire, and the results of its own batches reported, a key has one in-flight owner and one commit ever, across fund, swap and transfer together |
| `AppKeys.FailureIsClean` | internals/service/wallet_service.go:158-164 | A call that gives up and releases has posted nothing, its key is free, unowned and without a commit: it can be retried |
| `Service.CleanFailure` | internals/service/wallet_service.go:89-243 | Alone, a keyed request that neither succeeds nor reports a duplicate changes nothing at all; success marks the key, and a marked key is never served again |
| `AppWebhooks.QueueEmbedded` | internals/pkg/redis.go:60-118 | The queue inside the backend behaves as a queue run: all queue theorems apply to it |
| `AppWebhooks.RunQueue` | internals/pkg/redis.go:60-118 | On every run of the backend no job is lost, duplicated or altered, and retries are counted exactly |
| `AppWebhooks.RunLockProtocol` | internals/server/paystack_handler.go:77-94 | While Redis keeps the lock, an enqueued reference is locked and at most one handler stands between lock and enqueue, and none once it is enqueued |
| `AppWebhooks.EnqueuedAtMostOnce` | internals/server/paystack_handler.go:77-94 | A non-empty reference is enqueued at most once ever, whatever deliveries and failed pushes there are |
| `AppWebhooks.LockHeldExactly` | internals/server/paystack_handler.go:77-94 | If deletes succeed the lock is held exactly while the reference is enqueued or one handler is between lock and enqueue |
| `AppWebhooks.DroppedIsCovered` | internals/server/paystack_handler.go:77-84 | A delivery that finds its lock taken is covered: its reference is enqueued, or another handler has yet to enqueue it or to answer an error |
| `AppRefunds.OneBodyPerCode` | internals/service/payment_service.go:187-197 | Of each transfer code at most one body is ever enqueued: success and failure exclude each other |
| `AppRefunds.BehavedNeverRevives` | internals/service/payment_service.go:187-197 | Under the same hypotheses no run moves a FAILED row to SUCCESS, the proviso of reconciliation |
| `AppRefunds.RefundsAccount` | internals/repository/wallet_repo.go:282-309 | On every run, with no hypothesis, a row was refunded once for each time a transfer.success revived it, and once more if it is FAILED now |
| `AppRefunds.RefundedOnceExactly` | internals/repository/wallet_repo.go:282-309 | So it was refunded at most once if and only if it was never revived, or revived once and not refunded again |
| `AppRefunds.RefundedAtMostOnce` | internals/repository/wallet_repo.go:282-303 | End to end a withdrawal is refunded at most once, exactly when its row is FAILED, and the ledger stays reconciled |
| `AppRefunds.FailedIsForever` | internals/repository/wallet_repo.go:282-309 | Under the same hypotheses a FAILED row is FAILED in every later state |
| `AppRefunds.RevivedIsRefundedTwice` | internals/repository/wallet_repo.go:288-309 | On the atomic ledger: refund, success, refund pays an open withdrawal twice |
| `AppRevival.ReportsRefundTwice` | internals/server/paystack_handler.go:77-84 | From every reachable quiet state a failed, a success and a reversed body without reference, which take no lock, refund any open withdrawal of a non-negative amount twice |
| `AppRevival.TwiceRefundedIsReachable` | internals/service/payment_service.go:187-197 | Some run from the empty backend refunds one withdrawal twice |
| `AppRefunds.TwoWorkersRefundTwice` | internals/repository/wallet_repo.go:282-303 | Without the single worker: two refunds that read before either commits both pay |
| `JobQueue.QueueSafe` | internals/pkg/redis.go:60-118 | On every queue run each enqueued job is in exactly one of waiting, in flight, processed, dead; retries is its number of failed attempts, below 3, and exactly 3 when dead |
| `JobQueue.IterateDecreases` | internals/pkg/redis.go:70-118 | Each worker iteration lowers the sum of (3 - retries) over the waiting jobs, by exactly one when the attempt fails |
| `JobQueue.DrainsInThreeN` | internals/pkg/redis.go:70-118 | N fresh jobs are gone after 3N attempts, whatever fails |
| `JobQueue.FirstInFirstOut` | internals/pkg/redis.go:70-118 | Jobs are attempted in the order they wait, however pushes and failures interleave |
| `JobQueue.Fairness` | internals/pkg/redis.go:105-118 | Between two attempts of a job, every job queued ahead of its re-push is attempted, in order |
| `RateLimit.RunOrdered` | internals/pkg/redis.go:156-172 | On every run lives of the counter start at least one window apart and counts within a life increase |
| `RateLimit.SlidingBound` | internals/pkg/redis.go:156-172 | Any half-open interval of length T admits fewer than L * (ceil(T / W) + 1) requests of the routes with limit L, whatever other routes share the counter |
| `RateLimit.AlignedBound` | internals/pkg/redis.go:156-172 | At most L * ceil(T / W) when the life of the first admitted request began inside the interval: the announced limit holds of intervals that do not cut into an older life |
| `RateLimit.TwicePerWindow` | internals/pkg/redis.go:156-172 | At most 2L - 1 in any interval of one window |
| `RateLimit.BoundIsReached` | internals/pkg/redis.go:156-172 | The bound cannot be improved: for every limit, every window of at least two ticks and every number c of windows some run admits L * (c + 1) - 1 requests in c windows |
| `RateLimit.RateLimiter.IsRateLimited` | internals/pkg/redis.go:156-172 | The call is INCR followed by EXPIRE of the specification, and reports limited exactly when its count exceeds the limit |
| `RateLimit.RateLimiter.RateLimitHandler` | internals/middlewares/rate_limit.go:12-34 | Serves uncounted without a user id or when Redis fails; otherwise serves exactly the admitted hits |
| `RefreshTokens.RunLineage` | internals/service/auth_service.go:95-158 | On every run of logins, rotations and revocations the tokens form chains, one per successful login |
| `RefreshTokens.LoginSucceedsExactly` | internals/service/auth_service.go:95-117 | A login issues a token, for seven days, if and only if the password is right and the user got no token in this second; a refused login changes nothing |
| `RefreshTokens.ChainsBeginWithLogins` | internals/service/auth_service.go:95-117 | On every run each chain begins with a token that a login with the right password issued |
| `RefreshTokens.ChainsDisjoint` | internals/service/auth_service.go:118-155 | A token has one place: chains are disjoint and each token has at most one successor |
| `RefreshTokens.ChainHasOneOwner` | internals/service/auth_service.go:118-155 | All tokens of a chain belong to the user who logged in |
| `RefreshTokens.OneLivePerChain` | internals/service/auth_service.go:141-154 | At most one token of a chain is unrevoked, the last one |
| `RefreshTokens.UnrevokedAtMostLogins` | internals/service/auth_service.go:95-158 | There are never more unrevoked tokens than successful logins |
| `RefreshTokens.RevokedForever` | internals/repository/user_repository.go:135-142 | A revoked token stays revoked |
| `RefreshTokens.RotatedAtMostOnce` | internals/service/auth_service.go:118-155 | After a rotation was granted, or refused on saving the successor, the old token never yields another |
| `RefreshTokens.RotationIssues` | internals/service/auth_service.go:141-154 | A rotation that issues a token revokes the old one and adds the new one for seven days |
| `RefreshTokens.RotationRefused` | internals/service/auth_service.go:120-147 | A refused rotation leaves all rows alone if the token is forged or expired, and otherwise revokes it and nothing else |
| `RefreshTokens.RevocationExactly` | internals/service/auth_service.go:156-158 | Revocation revokes exactly that token; an unknown one is an error |
| `RefreshTokens.TokensAreIssued` | internals/repository/user_repository.go:116-123 | On every run the table holds exactly the tokens that some login or rotation issued |
| `RefreshTokens.RotationSucceedsExactly` | internals/service/auth_service.go:118-155 | A rotation issues a token if and only if the old one is signed, unexpired, in the table and unrevoked and the new one is not in the table; failing on the latter alone it leaves the chain without an unrevoked token |
| `RefreshTokens.RotationFailsExactly` | internals/service/auth_service.go:118-155 | On every run, rotating a valid token fails, and logs its chain out, if and only if the user was issued a token in this very second by any login or rotation |
| `RefreshTokens.SameSecondRotationFails` | internals/utils/jwt.go:28-34 | One failing input: a rotation in the second of the token's own minting produces the same token and logs the user out |
| `RefreshTokens.OtherLoginFailsRotation` | internals/utils/jwt.go:28-34 | Another: an older token rotated in the second of another login of the same user; that login goes through, this chain is logged out |
| `Auth.AuthService.SaveRefreshToken` | internals/repository/user_repository.go:116-123 | Inserts the row, or refuses and changes nothing when the token is in the table |
| `Auth.AuthService.RevokeRefreshToken` | internals/repository/user_repository.go:135-142 | Revokes exactly that token, reports whether it exists, keeps the lineage |
| `Auth.AuthService.Login` | internals/service/auth_service.go:95-117 | In place, the login step of the specification, with the exact condition of success; keeps the lineage |
| `Auth.AuthService.RotateRefreshToken` | internals/service/auth_service.go:118-155 | In place, the rotation step; a token is issued only for an unrevoked predecessor of the same owner |
| `Service.ServeCoherent` | internals/service/wallet_service.go:56-304 | Every request but a refund leaves every cached wallet equal to the database wallet |
| `Service.CacheAgrees` | internals/service/wallet_service.go:56-304 | After every sequence of reads, funds, swaps, transfers, withdrawal debits, charges, verifications, confirmations and registrations, each cached wallet is the database wallet |
| `Service.RefundCoherence` | internals/repository/wallet_repo.go:282-303 | A refund keeps the cache right if and only if it moves no money of a cached wallet |
| `Service.CacheAgreesExactly` | internals/repository/wallet_repo.go:282-303 | Over any sequence of requests, refunds included, the cache is right after each of them if and only if none is a refund that moves money of a wallet cached at that moment |
| `Staleness.BoundedStaleness` | internals/service/wallet_service.go:56-76 | With readers (whose cache lookup may fail), writers, refunds and invalidations fully interleaved, every returned wallet was true at a moment later than lookup - (5 min + D) and not after the answer |
| `Staleness.LookupAnswers` | internals/service/wallet_service.go:56-76 | A lookup that reaches Redis before the entry expires is answered from it; any other is answered with what it fetches, which is then cached for five minutes |
| `Staleness.AgreesNext` | internals/service/wallet_service.go:56-76 | The cache agrees with the database after a step if and only if the step mends (an invalidation, the fill of the true wallet, a write back) or it agreed and the step does not spoil (a write changing a cached wallet, the fill of one the database has left) |
| `Staleness.AgreesThroughout` | internals/service/wallet_service.go:56-76 | A run agrees at every moment if and only if none of its events spoils |
| `Staleness.ClosedAgreesExactly` | internals/service/wallet_service.go:110-111 | In every interleaved run whose last write was followed by an invalidation, the cache agrees if and only if no write changed the cached wallet between its fetch and its fill |
| `Staleness.CachedAgreesExactly` | internals/service/payment_service.go:165-171 | In any run a cached wallet is the true one if and only if the writes since its fetch add up to no change: what refunds, and charges whose invalidation comes first, leave behind |
| `Staleness.LateFillIsStale` | internals/service/wallet_service.go:65-73 | One way to disagree: fetch, write, invalidate, fill leaves the old wallet cached |
| `Staleness.StaleIsReachable` | internals/service/wallet_service.go:65-73 | Both kinds of disagreement are reached from the start: an overtaken fill with nothing open, and a write that nothing invalidates |
| `Repository.WalletRepository.Execute` | prisma/migrations/20251222104809_add_balance_check/migration.sql:69-98 | One statement in place with its constraints: the specified new tables, or the specified error and no change |
| `Repository.WalletRepository.MarkRows` | internals/repository/wallet_repo.go:305-309 | The loop restamps exactly the rows with that gateway reference |
| `Repository.WalletRepository.Transaction` | internals/repository/wallet_repo.go:104-104 | Runs statement by statement and undoes everything at the first failure: the batch of the specification |
| `Repository.WalletRepository.CreditWallet` | internals/repository/wallet_repo.go:80-105 | The deposit batch in place, on any wallet id, asset present or not: the new tables and the answer, constraints kept |
| `Repository.CreditedExactly` | internals/repository/wallet_repo.go:80-105 | It adds the amount to the balance, from zero if there is none, and logs one row, or refuses an unknown wallet, a used reference or a negative balance, in that order, and changes nothing |
| `Repository.FundIsCredit` | internals/service/wallet_service.go:95-101 | Looking up the user's asset and crediting its wallet is together the deposit of the ledger |
| `Repository.WalletRepository.SwapFunds` | internals/repository/wallet_repo.go:107-156 | The uninterrupted swap, every refusal included |
| `Repository.WalletRepository.TransferFunds` | internals/repository/wallet_repo.go:158-212 | The uninterrupted transfer, every refusal included |
| `Repository.WalletRepository.DebitForWithdrawal` | internals/repository/wallet_repo.go:214-240 | The uninterrupted withdrawal debit; it logs one pending row with the amount, the reference and the transfer code, on the user's wallet |
| `Repository.WalletRepository.CreditWalletByEmail` | internals/repository/wallet_repo.go:242-280 | The uninterrupted credit; a duplicate reference is success without effect |
| `Repository.WalletRepository.RefundWithdrawal` | internals/repository/wallet_repo.go:282-303 | The uninterrupted refund; unknown and FAILED rows are success without effect |
| `Repository.WalletRepository.UpdateTransactionStatus` | internals/repository/wallet_repo.go:305-309 | The uninterrupted status update |
| `Repository.WalletRepository.CreateUserWithWallet` | internals/repository/user_repository.go:39-76 | Three inserts, stopping at the first failure with what was done so far |
| `Service.EnrolledExactly` | internals/repository/user_repository.go:39-76 | Registration succeeds if and only if email and account number are free; a taken email changes nothing, a taken account number leaves a user without a wallet |
| `Service.HalfRegistered` | internals/repository/user_repository.go:55-63 | Such a user stays stuck: registering again is refused and every payment to the email is refused |
| `Services.RedisQueue.TryLockIdempotencyKey` | internals/pkg/redis.go:145-149 | Locks exactly the keys not yet present; an unreachable Redis locks nothing and reads as taken |
| `Services.RedisQueue.Enqueue` | internals/pkg/redis.go:60-68 | Appends a fresh job, or leaves the queue alone and reports the failure |
| `Services.RedisQueue.HandleFailure` | internals/pkg/redis.go:105-118 | Counts the attempt and sends the job to the back of its queue or to the dead letters |
| `Services.RedisQueue.StartWorker` | internals/pkg/redis.go:70-103 | Any number of turns of the loop, with bodies arriving before each, does to ledger, cache and queue what that many turns of the specification do; without arrivals, as many turns as the waiting jobs have attempts left empty the list, whatever fails |
| `Services.TurnExactly` | internals/pkg/redis.go:79-118 | One turn of the worker: the first job is processed; it is done with, or goes to the back with one more retry, or on its third failure to the dead letters |
| `Services.PaymentService.ProcessPaystackEvent` | internals/service/payment_service.go:145-200 | The dispatch in place: ledger, cache and error of the specification for every event, outages included |
| `Services.PaymentService.VerifyAndCredit` | internals/service/payment_service.go:366-399 | Nothing unless the gateway reports success; then the credit and the invalidation, and a served call finds the transaction of the reference unless the last read fails |
| `Services.WalletService.GetWalletWithAssets` | internals/service/wallet_service.go:56-76 | Cache-aside read; from an agreeing cache the answer is exactly the user's wallet in the database, and "not found" means the user has none |
| `Services.WalletService.FundWallet` | internals/service/wallet_service.go:89-113 | Lock, read, credit, complete or release: the specified store; a failing lock attempt is taken for a duplicate; any answer but success and duplicate leaves the store as it was |
| `Services.WalletService.SwapFunds` | internals/service/wallet_service.go:141-177 | The same for a swap, with a rate that may not be available |
| `Services.WalletService.TransferFunds` | internals/service/wallet_service.go:179-243 | The same for a transfer, with the service's own sender, recipient and self-transfer checks; both parties are invalidated |
| `Services.WalletService.WithdrawFunds` | internals/service/wallet_service.go:287-301 | The debit of an accepted withdrawal and the invalidation |
| `Services.Server.PaystackWebhookHandler` | internals/server/paystack_handler.go:77-96 | Duplicate, or lock not answered: 200 and no change; pushed: 200, enqueued and locked; failed push: 500 and the lock table as before. An acknowledged fresh reference is enqueued exactly when Redis answered the lock |

## Left out

- HTTP, JSON decoding, bcrypt, HMAC and JWT signatures: bodies arrive decoded or undecodable, passwords and signatures are booleans, a refresh token is its owner and expiry second.
- Gateway and rates API calls: their answers are inputs. Of a withdrawal only the debit, its row and the cache deletion are modelled, so no equation between gateway transfers and debits.
- That every failed transfer is eventually refunded: RefundWithdrawal answers nil when its read fails, so only safety is decided by the code.
- Concurrent refunds and concurrent rotations of one token: one worker and single-step rotation are assumed; `AppRefunds.TwoWorkersRefundTwice` shows why for refunds.
- Floating-point rounding of the DOUBLE PRECISION balances: amounts are exact reals.
- Isolation below a batch (row locks, two first inserts of one upsert at once): a batch is one step.
- A push that fails after it took effect, failing pushes in handleFailure, a worker crash between pop and push, undecodable queue entries.
- The tx_history, user profile, bank and rate caches, account-number generation, transaction pins, logging, configuration, middleware order.
- FindFirst without an order is taken as the earliest row; CreditWallet is only called with DEPOSIT and UpdateTransactionStatus only with SUCCESS, so these parameters are fixed.
- Descriptions, providers and timestamps of log rows.
- In the concurrent model an error before a batch (failed read, no rate, unknown sender or recipient seen by the service) is one abort step possible at any time, which allows more runs than the code has; the exact order of these checks is in `Service`.
- Expiry times of idempotency keys: a key may vanish at any step. The lemmas about locks name the keys that must not.
- The wallet cache is not part of the concurrent backend; it is treated alone in `Service` and interleaved in `Staleness`.
- Idempotency keys, cached wallets and rate counters have different prefixes in Redis and are separate maps here.
- Failing Redis writes and deletes in the services run alone: there only the lock attempt and the pushes may fail. In `App` releases, unlocks and pushes may fail as well, results may go unreported and any key may be lost.
- Services.RedisQueue.StartWorker: covers any finite number of turns of the endless loop; pushes arrive between turns there, and at any moment in `JobQueue` and `App`.
- RateLimit.SlidingBound: assumes all routes use one window length, as they do, and that INCR and EXPIRE do not fail.
- RateLimit.BoundIsReached: needs a window of two ticks; with times counted in whole windows an interval of one tick meets one life only.
