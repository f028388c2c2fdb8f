# CaaS verification

A Dafny model of the stateful cores of the CaaS service and proofs about all of their runs. SQL
tables are maps or sequences held in fields of classes, clocks and outside outcomes are parameters,
and every method is proved against a function that the theorems are then about.

| file | what it models |
|---|---|
| `Common.dfy` | an option type, powers, set sizes and single steps of real arithmetic, shared by the others |
| `TokenBucket.dfy` | the token bucket and its hints, against a quantifier over the whole request history |
| `LruStore.dfy` | the insertion-ordered map as an LRU stack |
| `RateLimiting.dfy`, `RateLimitRuns.dfy` | the bucket store, the per-request decision, and runs of it over many keys |
| `PayoutLedger.dfy` | money in the payout tables under any interleaving of lock, throw, status write and webhook |
| `PayoutSweep.dfy` | the payout statements, one payout, one sweep and the reserve after many |
| `BadgeRegistry.dfy` | badge state, registry, history, signatures, secrets and boot-time rotation |
| `WarrantyRecompute.dfy`, `WarrantyHistory.dfy` | policy evaluation, the bind and recompute handlers, the scheduled scan, and runs of all three |
| `Migrations.dfy` | the migration runner under crashes, and the renumbering done before it |
| `FxCache.dfy` | the memory cache over the rate table |
| `AuthSessions.dfy` | lockout and refresh-token rotation |
| `BackupRetention.dfy` | copying, pruning and choosing the failover backup |
| `RiskProfile.dfy`, `PremiumPricing.dfy` | the weighted risk profile, the configuration check and the premium |
| `LossRunLoader.dfy` | CSV parsing and grouping by vessel class |

`dafny verify dfyconfig.toml` checks the whole project.

## Where the code does less than its comments say

Each of these is proved, with the exact condition where there is one.

- Payouts are announced as idempotent within a day (`scripts/payout.ts:752`): the key contains the
  amount, so a second sweep that still finds the agent at its threshold pays 85 % of what is left,
  unless that very amount was paid earlier that day; a refunded payout is not repeated
  (`PayoutSweep.SameDayRepeat`, with the exact condition).
- A failure is announced to return the money (`scripts/payout.ts:788`): a webhook does so without
  looking whether it was returned before (`PayoutLedger.ThrowThenFailedWebhookOverpays`), and a provider
  FAILED during dispatch does not at all (`PayoutLedger.DebitKeptIff`). The log row does not tell which
  happened (`PayoutLedger.SameRowDifferentMoney`).
- History is announced to grow on a state change (`src/lib/badge-sync.ts:119-120`): it also grows when
  only the reason changes (`BadgeRegistry.SyncAppendsIff`, `BadgeRegistry.AmberToAmberIsRecorded`).
- A later restart is announced to repair stale signatures (`src/lib/badge-rotation.ts:43-44`): after an
  interrupted rotation and a rollback it does not (`BadgeRegistry.RollbackAfterInterruptedRotation`), nor
  after an upgrade over `src/db/migrations/phase15_commercial_activation.ts:275` with a changed secret,
  since the badges are older than the fingerprint (`BadgeRegistry.UpgradeWithChangedSecret`). When exactly
  a boot leaves stale badges is `BadgeRegistry.NextBootIsStaleIff`.
- The first void reason is announced to stand (`src/routes/insurance.ts:247-249`): only under
  the scheduler; recompute has no state guard (`WarrantyRecompute.RecomputeReachesVerdict`).
- Renumbering is announced as harmless on a current database (`src/db/migrate.ts:107-108`): the shipped list
  has since come to use 31 and 32 itself (`Migrations.ShippedListCannotReopen`, `Migrations.ReopenIff`); a
  database that still needs the renumbering opens once and then no more (`Migrations.OldDatabaseOpensOnce`).
- Memory serves a rate at its expiry instant, the table does not (`FxCache.MemoryIsTransparentIff`).
- The trajectory is announced on an EWMA basis (`src/lib/risk-profile.ts:148`): it compares plain means
  (`RiskProfiles.TrajectoryInSums`).
- A scan reports a state change also for a row that it then rolled back (`WarrantyHistory.ScanReports`).
- A single-day series is classified as rising (`RiskProfiles.SteadySeriesIsStableIff`).
- The configuration check announces a test for anchors at exactly 1 (`src/calibration/fitter.ts:107`) that it
  does not make (`PremiumPricing.ValidateCalibratedConfig`).
- The line number in a skip report counts non-blank lines (`LossRunLoader.LineNumberIsPhysicalIff`,
  `LossRunLoader.SkipsCarryReportedNumbers`).

## Model

| member | source | states |
|---|---|---|
| TokenBuckets.TokenBucket.Refill | src/middleware/rateLimiter.ts:164-170 | the counter gains elapsed time times rate, never above capacity, and the refill clock moves to now |
| TokenBuckets.TokenBucket.TryConsume | src/middleware/rateLimiter.ts:155-162 | admits exactly when the refilled counter covers the request; only an admitted request is charged |
| TokenBuckets.TokenBucket.RemainingTokens | src/middleware/rateLimiter.ts:173-176 | refills, then reports the whole tokens |
| TokenBuckets.TokenBucket.ResetEpoch | src/middleware/rateLimiter.ts:182-188 | the reset second of the hint specification, from the counter as it stands; infinite without refill |
| TokenBuckets.TokenBucket.RetryAfterSeconds | src/middleware/rateLimiter.ts:194-197 | the waiting time of the hint specification: 0 when a token is there, infinite without refill |
| TokenBuckets.CounterIsTightestWindow | src/middleware/rateLimiter.ts:133-170 | the O(1) counter is the least headroom over all windows of the history, and one window attains it |
| TokenBuckets.BucketRefinesHistory | src/middleware/rateLimiter.ts:133-170 | for every chronological run, a request is admitted iff no window ending at it would exceed capacity plus rate times its length |
| TokenBuckets.RemainingChangesNothing | src/middleware/rateLimiter.ts:164-176 | reads of `remaining` anywhere in a run leave every later decision as if they had not been made |
| TokenBuckets.RetryAfterIsExact | src/middleware/rateLimiter.ts:194-197 | with no other request, waiting the hinted seconds guarantees admission and one second less never does; an infinite hint means never |
| TokenBuckets.ResetIsExact | src/middleware/rateLimiter.ts:182-188 | the bucket is full from the hinted second on and, if not full, still not one second earlier; an infinite hint means never |
| TokenBuckets.SteadyClientIsServed | src/middleware/rateLimiter.ts:122-170 | unit requests spaced by at least one token of refill are admitted for ever |
| TokenBuckets.OverloadedClientIsRefused | src/middleware/rateLimiter.ts:122-170 | conversely, a run with more unit requests than burst plus accrued credit has a refusal |
| LruStores.AccessKeepsWellFormed | src/middleware/rateLimiter.ts:212-247 | an access keeps the table and its order in agreement, never outgrows the room, keeps every surviving bucket and leaves the accessed key in |
| LruStores.AccessOrder | src/middleware/rateLimiter.ts:217-247 | delete and reinsert, with eviction of the first key, moves the key to the end of the order |
| LruStores.LruStackProperty | src/middleware/rateLimiter.ts:212-247 | after an access a key stays resident iff fewer than the room of distinct other keys came since, and then with the same bucket |
| LruStores.SameObjectIff | src/middleware/rateLimiter.ts:212-247 | two consecutive accesses of a key use the same bucket object iff fewer than the room of distinct other keys came between |
| LruStores.OrderIsLastAccessOrder | src/middleware/rateLimiter.ts:200-234 | iteration order is last-access order, over every trace, and the size never exceeds the room |
| RateLimiting.BucketStore.Get | src/middleware/rateLimiter.ts:217-225 | a hit returns the stored object and moves its key to the end; a miss changes nothing |
| RateLimiting.BucketStore.SetBucket | src/middleware/rateLimiter.ts:227-234 | evicts the first key of a full store, then replaces a stored bucket in place or appends a new one |
| RateLimiting.BucketStore.GetOrCreate | src/middleware/rateLimiter.ts:236-247 | the specification access on objects and on their contents at once; a stored bucket keeps the tier it was made with |
| RateLimiting.AskBucket | src/middleware/rateLimiter.ts:354-372 | consume, remaining, reset and retry hint on one bucket, in that order, as the reply the run theorems are about |
| RateLimiting.EvaluateRateLimit | src/middleware/rateLimiter.ts:316-373 | the whole decision: an unknown tier is refused and touches nothing; otherwise store and reply are those of the specification step, which the theorems on replies are about, and a first request is allowed iff the burst holds a token |
| RateLimitRuns.OtherKeysDoNotTouch | src/middleware/rateLimiter.ts:212-247 | a request never changes the bucket of another key, short of evicting it |
| RateLimitRuns.AdmissionPotential | src/middleware/rateLimiter.ts:133-247 | admissions plus tokens in hand never exceed allowance plus credit over any stretch of a run |
| RateLimitRuns.AdmissionBound | src/middleware/rateLimiter.ts:316-373 | over any stretch a key evicted e times is told it is allowed at most (e+1) times the burst plus the requests per minute for the minutes elapsed, for the largest tier it claims |
| RateLimitRuns.RemainingIsExact | src/middleware/rateLimiter.ts:173-176 | the reply's `remaining` is exact: of further requests at the same instant that many are allowed and no more |
| RateLimitRuns.ResetHoldsInStore | src/middleware/rateLimiter.ts:182-188 | the reply's `resetEpoch` is the second from which the key's bucket, left alone, is full, and not one second earlier |
| RateLimitRuns.SpacedClientIsServed | src/middleware/rateLimiter.ts:122-170 | requests of a key at least 60000 / requestsPerMinute milliseconds apart are never refused, whatever other keys do and however small the store |
| RateLimitRuns.HintHoldsInStore | src/middleware/rateLimiter.ts:155-247 | with other keys in between, a client that waited the seconds of the reply's `retryAfterSeconds` is admitted, evicted or not; one that waited a second less is admitted iff it was evicted |
| RateLimitRuns.EveryClientStays | src/middleware/rateLimiter.ts:227-247 | when all client keys fit the room, a key is resident iff it has made a request |
| RateLimitRuns.NoEvictions | src/middleware/rateLimiter.ts:227-247 | so nothing is then evicted, and the admission bound holds with the burst counted once |
| RateLimitRuns.StoredIsSolitary | src/middleware/rateLimiter.ts:316-373 | then the shared store holds for each key what a private bucket would |
| RateLimitRuns.LimiterRefinesHistoryPerKey | src/middleware/rateLimiter.ts:316-373 | then the `allowed` of every reply is the history rule applied to that key's own requests |
| PayoutLedger.FindLogIsHasLog | scripts/payout.ts:439-445 | the lookup by idempotency key finds a row iff one has the key |
| PayoutLedger.LockedFacts | scripts/payout.ts:639-661 | a successful lock adds one pending row and takes the same amount from that agent and from nobody else |
| PayoutLedger.MoneyIsConserved | scripts/payout.ts:597-812 | over any interleaving of locks, throws, status writes and webhooks: per agent balance plus net payments equals the start, no balance is negative, and a key has one row and one debit or neither |
| PayoutLedger.RefundsExactlyWhenReportedOnce | scripts/payout.ts:687-722 | no row is refunded twice iff no key has two failure webhooks that find its row, nor one together with a dispatch that throws; then balances are the start less exactly the kept debits |
| PayoutLedger.DebitKeptIff | scripts/payout.ts:687-722 | a debit is outstanding iff its dispatch did not throw and no failure webhook reached it, so a provider FAILED keeps the money out |
| PayoutLedger.ThrowThenFailedWebhookOverpays | scripts/payout.ts:786-812 | from any opening state, a throw followed by a failure webhook refunds twice; the agent ends with its start plus the amount |
| PayoutLedger.SameRowDifferentMoney | scripts/payout.ts:687-722 | a refunded and a non-refunded failure leave identical log rows |
| PayoutSweep.PayoutTables.DebitAgentBalance | scripts/payout.ts:469-473 | the guarded debit changes one row iff the balance covers the amount |
| PayoutSweep.PayoutTables.LockFunds | scripts/payout.ts:639-661 | insert and debit together or not at all |
| PayoutSweep.PayoutTables.ProcessAgentPayout | scripts/payout.ts:515-742 | the tables and result of the specification of one payout, branch by branch |
| PayoutSweep.PayoutTables.FindEligibleAgents | scripts/payout.ts:427-437 | exactly the unlocked agents of the tenant at or above their threshold, each once |
| PayoutSweep.PayoutTables.RunPayoutSweep | scripts/payout.ts:754-784 | visits the snapshot in order; the counters add up to the agents evaluated and the total is what was reported sent |
| PayoutSweep.PayoutTables.SettlePayout | scripts/payout.ts:790-812 | status write, then a refund on failure when the row exists |
| PayoutSweep.PayoutIsLedgerRun | scripts/payout.ts:515-742 | an uninterrupted payout call is a run of the ledger's steps |
| PayoutSweep.CallsConserve | scripts/payout.ts:515-812 | any sequence of payouts, sweeps and webhooks from an opening ledger keeps the ledger's invariant: conservation, no negative balance, one debit per logged key |
| PayoutSweep.CallIsLocal | scripts/payout.ts:597-661 | what a payout does to its agent, and answers, depends on that agent's row and keys alone |
| PayoutSweep.SweepIsOneCall | scripts/payout.ts:754-784 | a sweep does nothing to an agent it does not list, and to one it lists what the one call on the starting tables would |
| PayoutSweep.OneCallMoves | scripts/payout.ts:515-742 | a call moves one agent's balance, by the kept amount |
| PayoutSweep.SweepOutflow | scripts/payout.ts:754-784 | a sweep lowers a balance by what the summary reports as sent to it plus what a provider refused without a refund |
| PayoutSweep.SameReadingLocksOnce | scripts/payout.ts:547-661 | in any interleaving with no refund of the agent in between, two payouts that read the same balance never both lock, whatever their days |
| PayoutSweep.CallAnswers | scripts/payout.ts:515-742 | one payout from the agent's row, the log and the world alone: paid, duplicate or refused, the amount reported and the amount kept |
| PayoutSweep.SweepAnswers | scripts/payout.ts:427-784 | who is listed, paid (85 % half up, from one cent to the cap), a duplicate (this agent, amount, method, country and day logged) or refused, and the row that is left |
| PayoutSweep.DayRenewsKeys | scripts/payout.ts:160-170 | whatever a sweep on another day did, the next one pays or reports a duplicate by what was logged for its own day before either |
| PayoutSweep.DisbursableBounds | scripts/payout.ts:547-555 | one payout keeps 15 % to within half a cent, and pays something iff there is something |
| PayoutSweep.BalanceAfterSweeps | scripts/payout.ts:547-555 | after any series of sweeps an agent's balance is what the rounding recurrence leaves of its start after as many payouts as kept money |
| PayoutSweep.ReserveAfterSweeps | scripts/payout.ts:547-561 | that is 0.15^k of the start within 0.5/(1-0.15) cents; at most nine payouts keep money, and a sweep lowers the balance iff it made one of them |
| PayoutSweep.GeometricReserve | scripts/payout.ts:547-555 | the bound on the recurrence, by exact half-up rounding in cents |
| PayoutSweep.DrainedAfterNine | scripts/payout.ts:547-561 | nine steps of the recurrence empty any balance the hard cap lets through |
| PayoutSweep.SameDayRepeat | scripts/payout.ts:427-437 | of two sweeps on a day, the second lists an agent not refunded iff what is left reaches its threshold, and pays it again iff gates and provider allow and that amount was not logged; one refunded is listed, never paid, and a duplicate iff the gates pass |
| BadgeRegistry.RegistryDb.SyncBadge | src/lib/badge-sync.ts:128-196 | the registry and reply of the specification sync |
| BadgeRegistry.SyncAnswers | src/lib/badge-sync.ts:129-196 | what a sync answers is what the registry then holds; the account is the first sync's, a changed badge is signed anew, other tenants stay |
| BadgeRegistry.SyncAppendsIff | src/lib/badge-sync.ts:134-188 | history grows iff state or reason differs from what is shown; a repeat writes nothing; other tenants are untouched |
| BadgeRegistry.AmberToAmberIsRecorded | src/lib/badge-sync.ts:147-188 | a change of ratio inside the amber band appends an amber-to-amber row |
| BadgeRegistry.HistoryIsChain | src/lib/badge-sync.ts:158-188 | over every run, from any database whose histories are chains, each tenant's history is a chain from null whose last state is the registry's |
| BadgeRegistry.NewHistoryIsChain | src/lib/badge-sync.ts:119-196 | in particular after any run from an empty database |
| BadgeRegistry.BadgeStates | src/lib/badge-sync.ts:62-103 | the badge of any inputs: no policy counts as active, amber from three quarters of a positive threshold up to it, red for a void only, each with its reason and figures |
| BadgeRegistry.RegistryDb.ResignAllBadges | src/lib/badge-rotation.ts:116-148 | re-signs every row once, in any order, with one audit row each |
| BadgeRegistry.RegistryDb.DetectAndApplyRotation | src/lib/badge-rotation.ts:46-109 | established, unchanged or rotated by the stored fingerprint; badges are rewritten only on a rotation |
| BadgeRegistry.BadgesVerify | src/lib/badge-rotation.ts:46-148 | on a database whose badges were found signed with one secret, every badge of a running process verifies as current while boots were safe, and all carry the secret of the last completed or re-signing boot |
| BadgeRegistry.NextBootIsStaleIff | src/lib/badge-rotation.ts:57-101 | while boots were safe the next one leaves a stale badge iff it does not re-sign, badges exist and another secret signed last |
| BadgeRegistry.UncutRunsAreSafeIff | src/lib/badge-rotation.ts:82-101 | without a cut between re-signing and storing the fingerprint all boots are safe iff the first completed one is, on the database as found |
| BadgeRegistry.FreshDatabaseIsSafe | src/lib/badge-rotation.ts:57-101 | so they are on a database without badges or with the fingerprint of the secret its badges carry |
| BadgeRegistry.UpgradeWithChangedSecret | src/lib/badge-rotation.ts:57-70 | badges found without a fingerprint and a changed secret leave stale badges though nothing was interrupted |
| BadgeRegistry.RollbackAfterInterruptedRotation | src/lib/badge-rotation.ts:88-101 | a rotation cut there and rolled back leaves stale badges that the next boot does not repair |
| BadgeRegistry.BadgeSecrets.GetBadgeSecrets | src/lib/badge-secrets.ts:49-78 | the cached secrets, else those resolved from the environment, which are then cached |
| BadgeRegistry.EnvAccepts | src/lib/badge-secrets.ts:49-134 | which signatures a process accepts, from its environment: current, else legacy, else the fallback; previous only beside current |
| BadgeRegistry.RotationAcceptsPrevious | src/lib/badge-secrets.ts:116-134 | badges signed before a rotation verify as previous when the old secret is given, and not otherwise |
| WarrantyRecompute.CountIsRows | src/routes/insurance.ts:257-291 | each count is the number of metric rows of that kind in the tenant's window |
| WarrantyRecompute.VerdictOnMetrics | src/routes/insurance.ts:251-317 | the verdict and its badge from the metric rows of the last 7 and 30 days, in whole counts; a ratio exactly at the threshold is active and green |
| WarrantyRecompute.WarrantyDb.ApplyStateTransition | src/routes/insurance.ts:323-362 | writes the warranty and one audit row iff the state differs |
| WarrantyRecompute.WarrantyDb.BindPolicy | src/routes/insurance.ts:445-466 | inserts an active warranty, syncs the badge and audits, as one step |
| WarrantyRecompute.WarrantyDb.RecomputePolicy | src/routes/insurance.ts:485-529 | evaluates the metrics whatever state the policy is in, then transitions and syncs; a missing policy changes nothing |
| WarrantyRecompute.RecomputeReachesVerdict | src/routes/insurance.ts:512-519 | recompute always ends in the verdict, so it reinstates a void policy exactly when the verdict is ACTIVE |
| WarrantyRecompute.HandlersOnlySync | src/routes/insurance.ts:445-519 | bind and recompute touch the registry through one sync, so the registry theorems cover them |
| WarrantyRecompute.WarrantyDb.SelectActive | src/lib/recompute-scheduler.ts:70-77 | lists exactly the ACTIVE warranties, each once |
| WarrantyRecompute.WarrantyDb.RecomputeRow | src/lib/recompute-scheduler.ts:86-113 | one transaction per row, evaluating the metrics: a fault restores the tables but not the counters already raised |
| WarrantyRecompute.WarrantyDb.RecomputeAllWarranties | src/lib/recompute-scheduler.ts:66-125 | the tables and counters of the specification scan of the metrics |
| WarrantyRecompute.ScanWarranties | src/lib/recompute-scheduler.ts:66-125 | every listed row reaches its tenant's verdict, a failing one keeps its warranty, a void one is never moved |
| WarrantyRecompute.ScanBadges | src/lib/recompute-scheduler.ts:66-125 | a tenant's badge ends in the verdict iff some row of it was committed, else it is unchanged |
| WarrantyRecompute.ScanOrderIrrelevant | src/lib/recompute-scheduler.ts:70-84 | any two row orders give the same warranties and the same badges |
| WarrantyRecompute.ScanIsNoOpIff | src/lib/recompute-scheduler.ts:66-125 | a scan writes nothing iff every row it gets through agrees with its verdict and badge already |
| WarrantyRecompute.SecondScanIsNoOp | src/lib/recompute-scheduler.ts:66-125 | after any scan, failed rows and all, a second one at the same evidence writes nothing, whatever it trips over, if the failed rows fail again |
| WarrantyRecompute.SecondScanCountsNothing | src/lib/recompute-scheduler.ts:66-125 | after a faultless scan it does not even count a change |
| WarrantyRecompute.ScanCounts | src/lib/recompute-scheduler.ts:79-124 | state_changes lies between the audit rows committed and those plus errors; badge_changes likewise against the history |
| WarrantyRecompute.ScanOnlySyncs | src/lib/recompute-scheduler.ts:87-105 | a scan acts on the registry as a run of syncs |
| WarrantyHistory.AuditIsChain | src/routes/insurance.ts:323-519 | over any run of bindings, recomputes and scans every warranty's audit trail starts with its binding, changes state in each later row, breaks nowhere and ends in the state and evidence it shows |
| WarrantyHistory.BoundIsListed | src/routes/insurance.ts:421-475 | a bound policy is active, on the list of the next scan and its tenant's badge is green |
| WarrantyHistory.BadgeTellsWhy | src/routes/insurance.ts:253-317 | the evidence kept and the figures a badge shows, in counts of metric rows: the ratio to the nearest tenth of a percent, the number of crossings |
| WarrantyHistory.ScanReports | src/lib/recompute-scheduler.ts:67-123 | scanned, errors and state_changes exactly: the listed rows, those whose transaction failed, and those with a void verdict that did not fail before their transition |
| Migrations.MigrationDb.RunMigrations | src/db/migrate.ts:1008-1082 | the progress of the specification run, with the counters equal to the reports of each kind |
| Migrations.MigrationDb.GetPendingMigrations | src/db/migrate.ts:1101-1111 | exactly the migrations of the list whose version is not recorded, in list order |
| Migrations.MigrationDb.GetCurrentVersion | src/db/migrate.ts:1088-1096 | the greatest recorded version, 0 when there is none |
| Migrations.MigrationDb.ReconcilePhase12Renumber | src/db/migrate.ts:112-159 | rewrites the legacy numbers in place, or refuses and changes nothing, iff a pair is ambiguous |
| Migrations.MigrationDb.OpenDatabase | src/db/migrate.ts:1143-1175 | reconcile, then run |
| Migrations.RunFromPrefix | src/db/migrate.ts:1008-1082 | a run from a recorded prefix extends it, applies exactly the rest up to where it dies and reports that |
| Migrations.RowsTell | src/db/migrate.ts:1035-1075 | a run only appends rows, each of a listed migration not recorded before, with its description and the time of the run |
| Migrations.CrashSafety | src/db/migrate.ts:1045-1057 | after any number of runs that died anywhere, the recorded versions are a prefix and the schema is the fold of exactly those |
| Migrations.OpensAreRuns | src/db/migrate.ts:1143-1175 | for a list without legacy numbers any number of dying opens is as many runs, so crash safety holds of the process as it starts |
| Migrations.CompletedRun | src/db/migrate.ts:1008-1111 | a run that completes reaches the one-shot schema, leaves nothing pending, and applied plus skipped is the total |
| Migrations.CommittedOnce | src/db/migrate.ts:1033-1057 | each `up` is committed once over the whole history iff it is in the recorded prefix |
| Migrations.ReconcileKeepsRows | src/db/migrate.ts:144-159 | renumbering keeps rows, order and distinctness, and is idempotent |
| Migrations.TakenOverWithoutRunning | src/db/migrate.ts:112-159 | a database that records every listed version, under its old or new number, opens without running anything |
| Migrations.ReopenIff | src/db/migrate.ts:1143-1175 | a migrated database reopens unchanged iff the list has no legacy number, and fails iff it holds a legacy number with its canonical one |
| Migrations.ShippedListCannotReopen | src/db/migrate.ts:112-142 | the shipped list 1 to 32 holds both 17 and 31, so a fully migrated database cannot be opened again |
| Migrations.ShippedListResumesIff | src/db/migrate.ts:112-142 | a first open of it that died can be resumed iff it died before 31 was recorded |
| Migrations.ShippedPrefixOpensIff | src/db/migrate.ts:112-159 | a database holding the first p versions of the shipped list opens iff p is at most 30, and then runs on as if nothing were renumbered |
| Migrations.OldDatabaseOpensOnce | src/db/migrate.ts:112-159 | one found with 1 to 16 and 31 to 35 is renumbered, runs 22 onwards without repeating the five and reaches the one-shot schema; the next open succeeds iff that one died before recording 31 |
| FxCache.FxService.GetCachedRate | scripts/fx.ts:180-188 | a remembered rate, deleted on the way when past expiry |
| FxCache.FxService.FetchLiveRate | scripts/fx.ts:235-277 | the first usable provider answer is remembered and stored; without one nothing changes |
| FxCache.FxService.GetRate | scripts/fx.ts:283-301 | memory, then table, then providers |
| FxCache.FxService.SetManualRate | scripts/fx.ts:410-435 | both refusals, else the override is remembered and stored |
| FxCache.FxService.PurgeExpiredRates | scripts/fx.ts:468-474 | drops exactly the rows expired before the cutoff and counts them |
| FxCache.LatestValidFacts | scripts/fx.ts:199-209 | the lookup returns the latest fetched unexpired row of the currency, and none iff there is none |
| FxCache.RowsAreDistinct | scripts/fx.ts:211-220 | in runs with distinct fetch times per currency the table has one row per currency and fetch time |
| FxCache.MemoryFollowsTable | scripts/fx.ts:180-301 | in every reachable state a remembered rate is the latest of its currency's valid rows |
| FxCache.FirstUsableIsFirst | scripts/fx.ts:242-252 | the live answer taken is positive and no provider before it gave one; none iff none did |
| FxCache.EffectiveIsNear | scripts/fx.ts:259 | the effective rate is the mid rate raised by the spread, to the nearest millionth |
| FxCache.StoredRateIsServed | scripts/fx.ts:180-301 | a stored rate answers every query of its currency until it expires or a newer one is stored, through purges and restarts |
| FxCache.MemoryIsTransparentIff | scripts/fx.ts:180-209 | the two levels answer as the table alone iff the query is not on the expiry instant of the remembered rate; only there is an expired rate served |
| AuthSessions.AuthDb.Login | src/routes/auth.ts:464-555 | the tables and answer of the specification login, in its branch order |
| AuthSessions.LoginIssuesIff | src/routes/auth.ts:464-555 | a token is issued iff the user exists, the password matches and no lock stands; it lives thirty days, and the count and lock are cleared |
| AuthSessions.LoginRefuses | src/routes/auth.ts:485-537 | while a lock stands nothing is written and its end is answered; else the count decides: open below five, fifteen minutes from five, a day from ten |
| AuthSessions.RefreshIssuesIff | src/routes/auth.ts:566-614 | a token is exchanged iff it is live and unexpired, its user exists and no lock stands; each refusal in its case, with what it leaves |
| AuthSessions.ChangeRevokesIff | src/routes/auth.ts:670-735 | a password changes iff strong, right and different; then every token of the user is revoked and a lock is kept |
| AuthSessions.AuthDb.Refresh | src/routes/auth.ts:566-615 | rotation with its three refusals |
| AuthSessions.AuthDb.RevokeAllUserRefreshTokens | src/routes/auth.ts:307-309 | revokes exactly the user's tokens |
| AuthSessions.AuthDb.ChangePassword | src/routes/auth.ts:670-735 | a weak or reused password changes nothing; a wrong current one only counts; success resets the count, audits and revokes |
| AuthSessions.AuthDb.DetectFailedAuthBurst | src/analytics/anomaly.ts:265-280 | below five failures, or when scoring does nothing, the row stays; a shadow lockout opens the account and keeps the lock's end, any other locks it and keeps the shadow's; failure count and other users are never touched |
| LoginLockout.AttemptIsHandler | src/routes/auth.ts:464-555 | an attempt of a run is what the login and change-password handlers do to that user's row |
| LoginLockout.QuietStep | src/routes/auth.ts:485-541 | one attempt keeps the lockout invariant, whatever the anomaly scorer does inside it |
| LoginLockout.WrongIsSpaced | src/routes/auth.ts:464-541 | over every run, the sixth wrong verification from any one on comes 15 minutes later or more |
| LoginLockout.AtMostFivePerWindow | src/routes/auth.ts:464-541 | without a success any half-open 15-minute window holds at most 5 wrong-password verifications |
| LoginLockout.FiveAreReached | src/routes/auth.ts:509-534 | the bound is attained |
| RefreshRotation.TokenRefreshesOnce | src/routes/auth.ts:566-615 | a token is exchanged at most once |
| RefreshRotation.NoRefreshAfterRevocation | src/routes/auth.ts:622-735 | no token issued before a logout or committed password change is exchanged afterwards |
| RefreshRotation.OneLiveTokenPerLogin | src/routes/auth.ts:566-615 | at most one unrevoked token descends from each login |
| RefreshRotation.NoTokenInsideLock | src/routes/auth.ts:485-614 | over any run, until the end of a standing lock it stands and no token is issued to the user, by login or refresh |
| RefreshRotation.LockedMeansLocked | src/routes/auth.ts:485-614 | in particular after a login that was told so |
| RefreshRotation.RefreshNeverAddsLive | src/routes/auth.ts:588-614 | a refresh keeps, or lowers by one, its owner's number of live tokens |
| BackupRetention.BackupDirectory.ListSorted | src/db/replication.ts:305-317 | exactly the .db files, in ascending order |
| BackupRetention.BackupDirectory.PruneFilesystemBackups | src/db/replication.ts:302-326 | alone, it leaves the newest k, none taken before what it deletes, and whatever older file could not be unlinked, which is counted all the same |
| BackupRetention.BackupDirectory.FindLatestFilesystemBackup | src/db/replication.ts:342-360 | the greatest .db name, none iff there is none |
| BackupRetention.SliceIsSurplus | src/db/replication.ts:319-325 | the slice deleted is the set of names with at least k greater ones |
| BackupRetention.RetentionIsSafe | src/db/replication.ts:302-326 | under any interleaving of copies, listings and single unlinks the k greatest names ever present are still there |
| BackupRetention.FailoverTargetSurvives | src/db/replication.ts:302-360 | so the failover target is the greatest backup ever present |
| BackupRetention.PruneIsRun | src/db/replication.ts:302-326 | a prune with nothing in between is such a run |
| BackupRetention.LessIff | src/db/replication.ts:315-358 | the order of names is decided by the first character that differs; a name precedes what extends it |
| BackupRetention.EarlierIsLess | src/db/replication.ts:315-398 | for names that carry their time, lexicographic is chronological |
| BackupRetention.StampShape | src/db/replication.ts:398-405 | the shape of such a name: year to millisecond on fixed places |
| BackupRetention.DigitsExamples | src/db/replication.ts:398 | decimal on fixed places, with leading zeros |
| BackupRetention.IsBackupIff | src/db/replication.ts:313-315 | a backup is what ends in .db |
| BackupRetention.CycleNamesBackups | src/db/replication.ts:398-405 | a file named so is a backup taken at that time |
| BackupRetention.RetentionInTime | src/db/replication.ts:302-360 | under any interleaving a backup that is gone leaves k that were not taken before it, and the failover target was taken before no backup ever |
| RiskProfiles.WeightSumIsZeroIff | src/lib/risk-profile.ts:122-132 | the sum divided by is zero only for a decay of -1 over an even number of days |
| RiskProfiles.Weights | src/lib/risk-profile.ts:122-134 | the array filled and normalised in place holds each day's power over their sum, unless the powers cancel out |
| RiskProfiles.WeightedSums | src/lib/risk-profile.ts:136-144 | the three loop sums are the one-pass averages, or not numbers where the weights are not |
| RiskProfiles.BuildRiskProfile | src/lib/risk-profile.ts:109-205 | both errors in their order, else the profile of the one-pass form; none in real numbers iff the weights cancel out |
| RiskProfiles.SqrtTest | src/lib/risk-profile.ts:166-180 | the volatility comparison decided on squares |
| RiskProfiles.RoundKeepsOrder | src/lib/risk-profile.ts:207-210 | rounding keeps the order, gives whole units of the last place and moves a value by at most half of one, ties upwards |
| RiskProfiles.WeightsGiveOnePassForm | src/lib/risk-profile.ts:122-144 | the weighted sum is the one-pass form and the weights sum to 1 |
| RiskProfiles.EwmaIsBetween | src/lib/risk-profile.ts:137-144 | the average lies between the smallest and the largest day |
| RiskProfiles.RatioIsBetween | src/lib/risk-profile.ts:145-146 | a ratio of averages lies within the per-day ratio bounds |
| RiskProfiles.ReportedRatiosAreBetween | src/lib/risk-profile.ts:145-193 | so do the two reported ratios, rounded |
| RiskProfiles.DecayedIsPositiveIff | src/lib/risk-profile.ts:145-146 | the average of a non-negative series is zero only if every day is |
| RiskProfiles.OneDayCounts | src/lib/risk-profile.ts:124-130 | a unit on one day counts with that day's weight |
| RiskProfiles.MovingLaterNeverLowers | src/lib/risk-profile.ts:119-144 | moving events to a later day never lowers the average, and raises it for a decay strictly between 0 and 1 |
| RiskProfiles.TrajectorySign | src/lib/risk-profile.ts:148-159 | the trajectory has the sign of recent mean less older mean and is at least -1 |
| RiskProfiles.SumOfParts | src/lib/risk-profile.ts:164-166 | totals add up over parts of the series |
| RiskProfiles.TrajectoryInSums | src/lib/risk-profile.ts:148-162 | how far a series moved, from the sums of its halves |
| RiskProfiles.VarianceInSums | src/lib/risk-profile.ts:170-172 | the variance from the sum and the sum of squares, without a mean |
| RiskProfiles.PatternInSums | src/lib/risk-profile.ts:169-186 | the pattern decided in plain sums, without a mean, a quotient or a root |
| RiskProfiles.ProfileShowsWindow | src/lib/risk-profile.ts:166-203 | days, drift days, totals and the first and last date |
| RiskProfiles.SteadySeriesIsStableIff | src/lib/risk-profile.ts:148-185 | equal days are stable iff there are two or more; a single day is rising |
| PremiumPricing.ValidateCalibratedConfig | src/calibration/fitter.ts:123-183 | the problem list holds exactly the faults of the configuration, with their levels |
| PremiumPricing.PartitionIsExact | src/calibration/fitter.ts:188-196 | the split loses and invents nothing |
| PremiumPricing.NoErrorsIffSane | src/calibration/fitter.ts:134-172 | no errors iff every rate, anchor, multiplier and size is positive and every coefficient non-negative |
| PremiumPricing.OneSignalPrices | src/lib/premium-pricing.ts:127-152 | the exact price with one signal at a time: base is rate times exposure times days, each signal scales it by its law, down to half |
| PremiumPricing.SignalsMultiply | src/lib/premium-pricing.ts:144-145 | in units of the base the price of all signals is the product of the prices of each alone, above the floor |
| PremiumPricing.MultiplierIsStored | src/lib/premium-pricing.ts:139 | the stored multiplier of a pattern, 1 if there is none |
| PremiumPricing.QuoteShowsFactors | src/lib/premium-pricing.ts:154-164 | the breakdown shows the factors of the total, each rounded to its places |
| PremiumPricing.PremiumIsMonotone | src/lib/premium-pricing.ts:122-153 | at least half a positive base, and non-decreasing in frequency, severity and anomaly rate together, rounded or not, also where the severity factor is negative |
| PremiumPricing.ProfileIsObserved | src/lib/premium-pricing.ts:122-150 | a profile of an accepted series meets what pricing assumes |
| PremiumPricing.MoreSeverityNeverLowersPremium | src/lib/premium-pricing.ts:122-175 | from the daily series to the quoted total, more severity on any days never lowers the premium |
| LossRunLoader.SplitThenJoin | src/calibration/loader.ts:81-100 | splitting on a separator loses nothing |
| LossRunLoader.JoinThenSplit | src/calibration/loader.ts:81-100 | and pieces without the separator come back when joined and split |
| LossRunLoader.TrimCuts | src/calibration/loader.ts:82 | trimming cuts white text off both ends, and all of it |
| LossRunLoader.TrimIsUnique | src/calibration/loader.ts:82 | there is one way to do so, whatever is around a text that is not padded |
| LossRunLoader.LowerAt | src/calibration/loader.ts:87 | lower case moves capital letters 32 places and leaves the rest |
| LossRunLoader.WrittenFileReadsBack | src/calibration/loader.ts:80-117 | a file written from plausible records, columns in any order, titles in any case, cells padded, Windows line ends, parses to exactly those records |
| LossRunLoader.RowIsRecordIff | src/calibration/loader.ts:120-173 | a row becomes a given record iff its named columns read as that record and the record is plausible, whatever the order of the checks |
| LossRunLoader.ReasonIsFirst | src/calibration/loader.ts:119-177 | the reason reported for a bad row applies, and none that is looked for before it does |
| LossRunLoader.ColumnsByNameOnly | src/calibration/loader.ts:120-128 | column order and further columns make no difference |
| LossRunLoader.BuildIndex | src/calibration/loader.ts:93-95 | each column name maps to its last position |
| LossRunLoader.ParseLines | src/calibration/loader.ts:97-115 | records are the good rows in order, skips the bad rows with their numbers |
| LossRunLoader.ParseLossRunCSV | src/calibration/loader.ts:79-118 | both errors in their exact case, the first missing column named; otherwise records and skips account for every data line |
| LossRunLoader.NothingIsLost | src/calibration/loader.ts:97-117 | every data line is a record or a skip, and skips name exactly the bad lines, in order |
| LossRunLoader.SkipsCarryReportedNumbers | src/calibration/loader.ts:81-115 | a non-blank line is in the skip list, under its reported number and reason, iff its row is bad for that reason |
| LossRunLoader.LineNumberIsPhysicalIff | src/calibration/loader.ts:81-106 | a reported line number is the line's number in the file iff no blank line precedes it |
| LossRunLoader.NormalizeIff | src/calibration/loader.ts:44-60 | a container label occurring anywhere in the trimmed lower-case name wins over a tug label, and a name with neither is dropped |
| LossRunLoader.NormalizeIgnoresCase | src/calibration/loader.ts:54-55 | spelling in capitals does not matter |
| LossRunLoader.GroupRecords | src/calibration/loader.ts:196-209 | each class holds exactly its records in order, each unmatched label its number of rows |
| LossRunLoader.AggregateByVesselClass | src/calibration/loader.ts:192-236 | a class has statistics iff it has records, those of exactly its records, and of one record that record itself, field by field |
| LossRunLoader.EveryRecordIsCounted | src/calibration/loader.ts:199-217 | the class row counts and the dropped rows add up to the records |
| LossRunLoader.RatiosRecoverTotals | src/calibration/loader.ts:223-225 | frequency, mean severity and loss ratio give the totals back; a mean exists iff there was a claim |
| LossRunLoader.YearsAreBounds | src/calibration/loader.ts:226-227 | the reported years are attained and bound every record |
| LossRunLoader.SingleRecordShowsItself | src/calibration/loader.ts:212-228 | a class of one record shows that record's claims, severity, exposure, premium and year in the fields of those names |
| LossRunLoader.ConcatenationAddsTotals | src/calibration/loader.ts:212-229 | two files read as one: sums of totals and spanning years for a class of both, the same statistics for a class of one, none for a class of neither; dropped rows add up |

## Left out

- Express routing, request schemas, headers, logging, metrics, and the choice of tier, tenant and bucket key
  from a request: the resolved tier and key are parameters.
- Floating-point error: tokens, ratios and premiums are exact reals, money is whole cents with half-up rounding.
- One clock reading is used for a whole rate-limit decision, badge sync or warranty scan, where the code
  reads the clock again a few instructions later; clocks do not run backwards.
- A room of `max(1, maxBuckets)` stands for the store's limit, which is what the code does for 0 and below.
- Negative rates of refill: the theorems on hints and histories take rates of zero or more.
- Country rules, KYC, FX conversion, withholding tax and method limits before a payout: two yes-or-no gates.
- MoMo, card, webhook, FX provider and S3 calls: any outcome, as a parameter. S3 backups are not modelled.
- The idempotency hash is injective on what it hashes, HMAC and SHA-256 are free constructors, fresh ids and
  tokens are distinct, and Argon2 is a parameter (match, mismatch or error).
- Every handler is one atomic step, except payouts, whose steps interleave; the pauses inside `login`
  (`src/routes/auth.ts:488-519`) are not interleaved with other requests of the same user. The one at
  513-519 dispatches alerts, after a shadow lockout has cleared `locked` and before `lockUser` runs.
- Two rates of one currency are not fetched in the same millisecond. FX rates are persisted without fault; a
  failing insert after the memory write is not modelled.
- PayoutSweep.ReserveAfterSweeps: sweeps one after the other, with no deposit or webhook between them;
  overlapping sweeps are runs of the ledger's steps, for which conservation and `PayoutSweep.SameReadingLocksOnce`
  are proved.
- AuthSessions.AuthDb.DetectFailedAuthBurst: the scorer's choice of lockout is a parameter; the anomaly log
  and alerts are not modelled.
- The metric rows are read, never written, by the warranty model.
- The handler that attaches an external policy number, and the tenant check before bind and recompute.
- Migration bodies are arbitrary functions on an arbitrary schema; SQLite transactions are atomic and
  primary keys unique.
- The two sorts of the backup directory (`localeCompare` and code units) are one order: on names made of a
  timestamp and hexadecimal digits they agree. Directories and unreadable folders are not modelled.
- Failover handles, manifests and integrity checks of the backup manager.
- RiskProfiles.BuildRiskProfile: for a decay of -1 over an even number of days the code divides by zero and
  reports averages that are not numbers, and the model answers None; its other figures are then not stated.
  Bounds and monotonicity take a decay of zero or more. Dates are carried, not parsed.
- `log1p`, `Math.sqrt` and `Number` are parameters with the laws used (monotone and zero at zero; the
  non-negative root; any finite reading).
- `toLowerCase` and `trim` on ASCII only; the insertion order of the statistics map, and the order of the
  problem list of the configuration check, are not stated.
- PremiumPricing.ValidateCalibratedConfig: the reason texts are not modelled, only field and level.
- LossRunLoader.ParseLossRunCSV: the wording of skip reasons is a datatype, not a string.
- `nullFitter`, vessel-class tables, industry profiles, role tables, anomaly scores, policy and verification
  engines: finite tables and filters that would add only easy members.
- `CommercialEngine`, the job queue and the Phase 15 and 16 migration bodies.
