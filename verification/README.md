# Verification of the account service

A Dafny 4.11 model of the parts of this repository that hold real behaviour, with proofs over every
input, every run or every reachable state. `dafny verify dfyconfig.toml` checks all of it.

## What is modelled

- **Accounts behind a cache** (`Domain`, `AccountTable`, `Cache`, `AccountOps`, `Accounts`,
  `AccountAnswers`, `AccountRuns`). The objects of `Accounts` (database with its ambient transaction,
  caching decorator, use case) are proved to leave exactly the state, and return exactly the answer, that
  the functions of `AccountOps` give; `AccountAnswers` says from the request, the rows, the entries and the
  environment alone what each operation answers, writes and caches; `AccountRuns` proves what runs of those
  operations, one at a time, guarantee.
- **The same cache under concurrency** (`Staleness`): lookup, load and store as separate steps of any
  number of clients, among commits of arbitrary tables, evictions and crashes.
- **Readers among writing transactions** (`WriterRaces`): those reads together with transactions that
  write a row, evict its key, perhaps reload it, and commit or roll back.
- **Racing creates** (`RacingCreates`): the duplicate check and the insert as separate steps of
  concurrent transactions against the key and unique-email constraints.
- **The lease lock and its periodic job** (`RedisLock`, `LockProtocol`, `TickCounts`, `Worker`): replicas,
  lost requests, lost replies, crashes, releases delivered late or repeatedly, and the accounting of every
  replica; `Worker` is one worker's ticks as its methods perform them.
- **The commit-after-handle consumer** (`Consumer`): fetch, decode, handle and commit over several
  partitions, with crashes and restarts at any point.
- **Three backends, one table** (`Backends`, `Paging`): partial updates as column maps and as COALESCE,
  and filtered pages.
- **Application errors** (`AppErrors`, `AppErrorObjects`): error chains, copying derivations,
  classification and the two renderings.

A run is a sequence of states with the steps between them, so "at some moment" is "in some state of the
run". Every answer of the outside world (faults, elapsed time, verdicts, tokens, new ids) is an input.

## Assumptions

- A failed cache store or delete leaves the cache as it was.
- Lock tokens are fresh. A new account id is one not in the table.
- A transaction commits or rolls back as a whole and sees its own writes. In `WriterRaces` it also locks
  the row it writes until it ends, and other clients read committed rows.
- `PagesTile`, `SqlcPagesTile` and `FirstPagesArePrefix` are about one arrangement for all pages. The
  queries sort by creation time alone, so among rows of equal creation time that is an assumption;
  `TilesAlwaysExactly` drops it.
- Committing Kafka offset n sets the partition's committed position to n + 1.
- A cache entry or lease is gone from its expiry time on; the cache time to live is above zero.
- Driver and library errors contain no application error.

## Where comments promise more than the code does

- *Messages that fail are redelivered* (internal/adapter/kafka/consumer.go:49-50). The running consumer
  does not come back to them: the reader moves on, and `NoRestartNoRedelivery` is a run that never fetches
  a failed message again. They are fetched again only after a restart, and then exactly if no later message
  of the partition had been committed before it: `FetchedAgainExactly`, `FailedIsRedeliveredExactly`.
  `FailureCanBeLost` is a run that restarts and has lost one.
- *Exactly one replica runs the job per tick* (internal/apps/worker/worker.go:4-5). The lock keeps apart
  runs that stay within their leases (`MutualExclusion`; `OverrunOverlaps` without that); it does not count
  them. Whoever acquires in between, releases or crashes, the acquisition after a granted one is granted
  exactly when that lease has run out or its release has been delivered: `NextGrantExact`. For two ticks
  one after the other: both run when the first has finished and released (`FinishedRunLetsNextRun`);
  neither runs when the reply to the first acquisition is lost, for the lease it left locks the second out
  although nobody holds it (`OrphanLeaseSkipsBoth`); `NextTickExact` has all states and faults.
- *Writes invalidate affected keys* (internal/adapter/repo/cached/account.go:1-7). Only the id key is
  evicted; an email entry outlives updates and deletes until it expires: `WritesLeaveEmailEntries`,
  `BoundIsTight`.
- *The next read reloads the fresh row* (internal/adapter/repo/cached/account.go:69-70). In runs of
  operations one at a time it does unless the eviction fails over a live entry, or the commit fails after
  the in-transaction reload has cached the uncommitted row, and in no other way: `StepCoherenceExact`,
  `RunCoherenceExact`. With concurrent requests no fault is needed, because the eviction comes before the
  commit: a read that loads before the commit and stores after the eviction leaves the old row behind.
  `EarlyEvictionServesOldRow` and `LateStoreServesOldRow` are such runs. For entries not cached by a reload,
  `StaleExactly` says when one is stale and that, with evictions succeeding, such a read is behind it, and
  `NoRaceNoStaleEntry` that without one they are fresh. An entry cached by a reload is the row its
  transaction commits, unless the transaction rolls back after it: `ConcurrentCoherence` covers both kinds
  where no such rollback happens, `RolledBackRowIsServed` is one.
- *Update returns the refreshed account* (internal/core/usecase/account/account.go:125-126). One operation
  at a time it does unless its eviction fails over a live entry: `UpdateReturns`. With concurrent requests
  it also returns an older row, without any fault, when a read of the id stores between the eviction and
  the reload, and in no other way: `UpdateAnswers`; `UpdateAnswersOldRow` is such a run.
- *A duplicate email is guarded against* (internal/core/usecase/account/account.go:52-54). Emails equal
  up to letter case share a cache key but not a table constraint: `DuplicateCheckExact`,
  `CaseVariantAccepted`.

## Model

| member | source | states |
|---|---|---|
| Domain.KeySharing | internal/domain/account.go:36-47 | two reads share a cache key exactly when they ask for the same id, or for emails equal up to letter case; the two key families never meet |
| Domain.SharedKeyAnswers | internal/domain/account.go:41-47 | a row cached under one of its own keys answers, up to letter case, every request with that key |
| Domain.CacheKeysCover | internal/domain/account.go:49-56 | the derived keys are exactly those of the reads the row answers (no email key without an email), none twice |
| AppErrors.IsSearchesChain | internal/infra/apperr/apperr.go:40-54 | errors.Is holds exactly when some error of the unwrap chain is the target or an AppError of its code |
| AppErrors.ChainUnwraps | internal/infra/apperr/apperr.go:44-46 | the chain is the error and what Unwrap yields step by step, to its end |
| AppErrors.AsAppIsOutermost | internal/infra/apperr/apperr.go:107-119 | errors.As yields the first AppError of the chain, and none exactly when there is none |
| AppErrors.DerivedKeepsIdentity | internal/infra/apperr/apperr.go:83-105 | after any number of derivations code and both statuses are the base's, errors.Is matches the base in both directions, no metadata key is lost |
| AppErrors.LastDerivationWins | internal/infra/apperr/apperr.go:83-105 | message, cause and each metadata key hold the last value given, whatever came before and after |
| AppErrors.UntouchedStays | internal/infra/apperr/apperr.go:77-105 | message, cause and metadata values of which no derivation speaks stay the base's |
| AppErrors.SentinelsDistinct | internal/infra/apperr/catalog.go:11-31 | a sentinel derived without a cause matches another sentinel only if they are the same one; HTTP status and gRPC code of each correspond |
| AppErrors.SingleAppIs | internal/infra/apperr/apperr.go:48-54 | with at most one AppError in the chain, errors.Is with a sentinel is equality of codes |
| AppErrors.ClassificationAgrees | internal/infra/apperr/apperr.go:107-119 | errors.Is and FromError disagree on a sentinel exactly when it hides below an outermost AppError of another code |
| AppErrors.FromErrorKeepsError | internal/infra/apperr/apperr.go:107-119 | an error without AppError becomes an internal one that holds it as its cause, and errors.Is with an AppError is preserved |
| AppErrors.RepositoryClassification | internal/adapter/repo/sqlc/account.go:120-137 | for every repository error the two agree on account-not-found and on already-exists, and hold exactly for a missing row and for a unique violation |
| AppErrors.RepositoryErrorsRender | internal/infra/apperr/catalog.go:11-31 | a missing row is 404 and NotFound, a unique violation 409 and AlreadyExists, every other repository error 500 and Internal, on both transports |
| AppErrors.RepositoryErrorsKeepCause | internal/adapter/repo/sqlc/account.go:120-137 | the driver's error stays in the chain of the mapped error |
| AppErrors.TransportsAgree | internal/infra/httpx/error.go:22-35 | HTTP and gRPC render the outermost AppError whatever its cause; without one, the internal sentinel, and gRPC passes an existing status through |
| AppErrors.StatusPassesThrough | internal/infra/grpcx/error.go:23-35 | without an AppError, the interceptor keeps the error exactly when some error of its chain is a gRPC status, and else answers Internal |
| AppErrorObjects.AppError.Metadata | internal/infra/apperr/apperr.go:68-75 | a fresh map with the object's entries, empty for a nil map |
| AppErrorObjects.AppError.Clone | internal/infra/apperr/apperr.go:77-81 | a fresh object with a fresh map and the same value |
| AppErrorObjects.AppError.Cause | internal/infra/apperr/apperr.go:83-88 | a fresh object that differs in the cause alone; nothing existing is modified |
| AppErrorObjects.AppError.WithMessage | internal/infra/apperr/apperr.go:90-95 | a fresh object that differs in the message alone; nothing existing is modified |
| AppErrorObjects.AppError.WithMetadata | internal/infra/apperr/apperr.go:97-105 | a fresh object whose own fresh map has the pair added; nothing existing is modified |
| AppErrorObjects.DeriveChain | internal/infra/apperr/apperr.go:16-18 | a chain of derivations of any length leaves its base and the base's map as they were, shares no memory with them and still matches the base |
| AccountTable.Find | internal/adapter/repo/gorm/account.go:43-65 | the row a read selects, by id or by exact email; none exactly when no row has it |
| AccountTable.WritesExact | internal/adapter/repo/gorm/account.go:29-108 | insert, partial update and delete change exactly the one row, field by field, and only if the constraints and the row allow it |
| AccountTable.UpdatesMerge | internal/adapter/repo/sqlc/gen/account.sql.go:154-160 | any number of successive updates of a row equal the one merged update in which the later value wins, with the same not-found verdict |
| Cache.CacheAsideOutcome | internal/adapter/cache/manager.go:31-56 | the answer is the live entry, what was loaded, or the store's error; no other key changes; the key is stored exactly on an answered miss |
| Cache.Manager.Get | internal/adapter/cache/manager.go:25-29 | the live value, an error for a miss and for a failed lookup alike |
| Cache.Manager.GetOnce | internal/adapter/cache/manager.go:34-56 | state and answer of the cache-aside read |
| Cache.Manager.Set | internal/adapter/cache/manager.go:58-61 | the entry with its expiry, or no change on failure |
| Cache.Manager.SetMulti | internal/adapter/cache/manager.go:63-72 | exactly the pairs before the first failure are stored; with more keys than values it panics after the last value, unless a store failed before |
| Cache.Manager.Delete | internal/adapter/cache/manager.go:74-77 | the entry is gone, or no change on failure |
| Cache.PutAllStoresLast | internal/adapter/cache/manager.go:65-72 | after a multi-store a key holds the value of its last listing, under the shared expiry |
| Cache.PutAllFrame | internal/adapter/cache/manager.go:65-72 | a multi-store touches no unlisted key |
| Accounts.Database.Create | internal/adapter/repo/gorm/account.go:29-41 | adds the row to the transaction's view, or already-exists on a taken id or email, committed rows untouched inside a transaction |
| Accounts.Database.Update | internal/adapter/repo/gorm/account.go:67-95 | patches one row of the view or reports not-found |
| Accounts.Database.Delete | internal/adapter/repo/gorm/account.go:97-108 | removes one row of the view or reports not-found |
| Accounts.CachedRepository.GetByID | internal/adapter/repo/cached/account.go:43-51 | the cache-aside read under the id key over the current view |
| Accounts.CachedRepository.GetByEmail | internal/adapter/repo/cached/account.go:53-61 | the cache-aside read under the lower-cased email key, loading by exact email |
| Accounts.CachedRepository.Create | internal/adapter/repo/cached/account.go:63-67 | the inner insert; the cache is not modified |
| Accounts.CachedRepository.Update | internal/adapter/repo/cached/account.go:69-77 | the inner update, then the id key evicted if it succeeded; nothing changes if it failed |
| Accounts.CachedRepository.Delete | internal/adapter/repo/cached/account.go:79-86 | the inner delete, then the id key evicted if it succeeded; nothing changes if it failed |
| Accounts.CachedRepository.Invalidate | internal/adapter/repo/cached/account.go:93-100 | evicts the key; a failure is swallowed |
| Accounts.UseCase.EndTx | internal/ports/outbound/tx_manager.go:18-23 | the view becomes the committed table only if body and commit succeed; the cache is not rolled back |
| Accounts.UseCase.EnsureEmailFree | internal/core/usecase/account/account.go:188-200 | the verdict on the cached read by email |
| Accounts.UseCase.Admit | internal/core/usecase/account/account.go:55-77 | limiter, email, password policy and hash checked in this order, each with its error |
| Accounts.UseCase.Create | internal/core/usecase/account/account.go:52-112 | the world and answer of a create; agreement of the id entries is kept under every fault |
| Accounts.UseCase.Get | internal/core/usecase/account/account.go:114-120 | the world and answer of a get; agreement of the id entries is kept under every fault |
| Accounts.UseCase.Update | internal/core/usecase/account/account.go:127-159 | the world and answer of an update; agreement is kept exactly when it leaves no stale entry |
| Accounts.UseCase.Delete | internal/core/usecase/account/account.go:161-173 | the world and answer of a delete; agreement is kept exactly when it leaves no stale entry |
| AccountAnswers.CreateSucceedsExactly | internal/core/usecase/account/account.go:52-112 | a create succeeds exactly when limiter, email, policy and hashing pass, no readable entry is in force under the email key, load, write and commit work, and neither the email nor the id is taken |
| AccountAnswers.DuplicateIsRejected | internal/core/usecase/account/account.go:188-200 | past those checks a readable entry under the email key is account_already_exists with the email, 409 and AlreadyExists, and no row or entry changes |
| AccountAnswers.RefusedCreateFailsAs | internal/core/usecase/account/account.go:55-77 | the first of limiter, email, policy and hashing that fails decides the error on both transports; nothing changes |
| AccountAnswers.AdmittedCreateFailsAs | internal/core/usecase/account/account.go:96-112 | of an admitted create, whatever is in its way first decides the error on both transports; no row changes |
| AccountAnswers.CreateWritesRequest | internal/core/usecase/account/account.go:79-112 | every field of the row a create adds and returns, from request, hash, id and clock; an invalid status becomes active |
| AccountAnswers.CreateCacheExact | internal/core/usecase/account/account.go:96-108 | a create stores exactly when its check loads a row of that email, and then that row until its expiry |
| AccountAnswers.GetSucceedsExactly | internal/core/usecase/account/account.go:114-120 | a get succeeds exactly on a readable entry or an existing row that can be loaded and stored, and returns that entry or row |
| AccountAnswers.GetFailsAs | internal/core/usecase/account/account.go:114-120 | not-found exactly for a missing row that is not cached, invalid-request for no id, internal otherwise |
| AccountAnswers.GetCacheExact | internal/adapter/cache/manager.go:34-56 | a get stores the row exactly on an answered miss |
| AccountAnswers.UpdateSucceedsExactly | internal/core/usecase/account/account.go:127-159 | an update succeeds exactly when it has an id and no invalid status, the row exists, write and commit work, and the reload is answered |
| AccountAnswers.UpdateFailsAs | internal/core/usecase/account/account.go:127-159 | its errors on both transports, not-found exactly for a missing row; no row changes |
| AccountAnswers.UpdateWritesRequest | internal/core/usecase/account/account.go:138-158 | each requested field reaches its column, the others stay, updated_at is the clock, no other row changes; the answer is that row, or the entry a failed eviction left |
| AccountAnswers.UpdateCacheKept | internal/adapter/repo/cached/account.go:69-77 | no entry changes when the update is refused or its write fails, or when the old entry answers the reload |
| AccountAnswers.UpdateCacheExact | internal/adapter/repo/cached/account.go:69-77 | else the old entry is gone unless its eviction failed, and the row with the requested fields is stored unless load or store fails, whether or not the transaction commits |
| AccountAnswers.DeleteExact | internal/core/usecase/account/account.go:161-173 | when a delete succeeds, which row it removes and when its id entry is evicted |
| AccountAnswers.DeleteFailsAs | internal/adapter/repo/gorm/account.go:97-108 | its errors on both transports, not-found exactly for a missing row |
| AccountRuns.StepTouches | internal/adapter/repo/cached/account.go:43-91 | every operation stores under or evicts at most one cache key: its id key, or for a create its email key |
| AccountRuns.UpdateAgreesExact | internal/core/usecase/account/account.go:137-158 | for all faults, after an update the id entry agrees with the committed row unless a commit follows a failed eviction of a live entry, or a failed commit follows the reload |
| AccountRuns.DeleteAgreesExact | internal/core/usecase/account/account.go:161-173 | for all faults, after a delete no live id entry remains unless its eviction failed and the delete committed |
| AccountRuns.StepCoherenceExact | internal/adapter/repo/cached/account.go:69-86 | an operation undisturbed by others on a coherent world keeps it coherent exactly when it is not one of those shapes |
| AccountRuns.RunCoherenceExact | internal/adapter/repo/cached/account.go:19-22 | over every run of operations one at a time, from an empty cache, the id entries agree throughout exactly when no operation leaves a stale entry |
| AccountRuns.SoundRunIsCoherent | internal/adapter/repo/cached/account.go:19-22 | after any run, one operation at a time, whose evictions and update commits succeed, every live id entry is the committed row |
| AccountRuns.CachedGetIsTransparent | internal/adapter/repo/cached/account.go:43-51 | after any run whose evictions and update commits succeed, a cached get by id returns what the inner repository would, or the cache store's error |
| AccountRuns.CreateAllOrNothing | internal/core/usecase/account/account.go:96-112 | a failing create changes no row; a successful one adds exactly the returned account under a free id and email |
| AccountRuns.UpdateAllOrNothing | internal/core/usecase/account/account.go:137-158 | a failing update, a failing reload after the patch included, changes no row; a successful one patches exactly one |
| AccountRuns.DeleteAllOrNothing | internal/core/usecase/account/account.go:166-172 | a failing delete changes no row; a successful one removes exactly one |
| AccountRuns.UpdateReturns | internal/core/usecase/account/account.go:138-158 | one operation at a time, a successful update returns the previous row patched, except exactly the old entry when its eviction failed and the reload hits it |
| AccountRuns.UpdateThenGet | internal/core/usecase/account/account.go:127-159 | one operation at a time, after an update whose eviction succeeded, the next get returns what the update returned, before and after expiry |
| AccountRuns.DuplicateCheckExact | internal/core/usecase/account/account.go:188-200 | the email counts as taken exactly on a readable live entry under its key or a faultless exact match, as free exactly on neither |
| AccountRuns.FaultsAreOpaque | internal/core/usecase/account/account.go:192-199 | driver failures, raw or mapped, are neither account sentinel; the mapped no-rows and unique-violation errors are theirs |
| AccountRuns.CaseVariantAccepted | internal/core/usecase/account/account.go:96-108 | an email differing from a stored one only in case is accepted when nothing is cached under the key |
| AccountRuns.CreateNeedsNoEviction | internal/adapter/repo/cached/account.go:63-67 | once the check passes on a working lookup, no live entry exists under the new id key or email key, before or after the create |
| AccountRuns.CreateAfterSoundRun | internal/adapter/repo/cached/account.go:63-67 | the same after every run from an empty cache whose evictions and update commits succeed |
| AccountRuns.NewEmailEntry | internal/adapter/repo/cached/account.go:53-61 | an email entry is only ever written by the check of a create, with the committed row, and that create changes no row |
| AccountRuns.RunsKeepEmailsJustified | internal/adapter/repo/cached/account.go:53-61 | after any run every email entry is a row of that email up to case, committed at most the time to live before its expiry |
| AccountRuns.RejectionIsJustified | internal/core/usecase/account/account.go:190-200 | after any run, faults included, a create is rejected as existing only if an account with that email up to case was committed within the last time to live |
| AccountRuns.WritesLeaveEmailEntries | internal/adapter/repo/cached/account.go:69-86 | an update or delete leaves every email entry exactly as it was |
| AccountRuns.DeleteEmailAgreesExact | internal/adapter/repo/cached/account.go:79-86 | a live email entry that agrees with its row still agrees after a delete exactly if the delete failed, the entry is another account's, or it expired before the commit |
| AccountRuns.UpdateEmailAgreesExact | internal/adapter/repo/cached/account.go:69-77 | after an update exactly if it failed, the entry is another account's, the patch changes nothing in the row, or the entry has expired |
| Staleness.BoundedStaleness | internal/adapter/cache/manager.go:34-56 | in every interleaving an account served at time t answers its request and was committed, or for an in-transaction reload was loaded uncommitted, at some moment in [t - ttl - gap, t] |
| Staleness.RunIsJustified | internal/adapter/repo/cached/account.go:44-61 | the invariant behind it: every entry and every pending load has such a source, in every state |
| Staleness.BoundIsTight | internal/adapter/repo/cached/account.go:54-61 | for every ttl and gap there is a run that serves, by email, a deleted row last committed ttl + gap - 1 earlier |
| Staleness.StepTouches | internal/adapter/cache/manager.go:31-77 | which part of table, entries, clock and clients each step can change, and that a store, failed or not, ends its read |
| Staleness.StepsAreCacheAside | internal/adapter/cache/manager.go:40-55 | the separate steps, performed without interference, are the cache-aside read |
| WriterRaces.WritersRefineStaleness | internal/core/usecase/account/account.go:137-158 | every run with writing transactions is, for cache and table, a run of the interleaved reads, so their bound on staleness holds for it |
| WriterRaces.EntryComesFromRead | internal/adapter/cache/manager.go:34-56 | every id entry not cached by a reload is the row committed when one identified read loaded it, stored by that read and there since |
| WriterRaces.EvictionPrecedesStore | internal/adapter/repo/cached/account.go:69-86 | each committed write of the id whose eviction succeeded evicted before the entry was stored |
| WriterRaces.RowMovedOnExactly | internal/core/usecase/account/account.go:137-158 | a row differs from what a load saw exactly when the last commit of its id came since and left another row |
| WriterRaces.StaleExactly | internal/adapter/repo/cached/account.go:69-86 | an id entry not cached by a reload is stale exactly when the last commit of the id came after its load and left another row; with evictions succeeding a commit after the load then belongs to a write that evicted before the store |
| WriterRaces.NoRaceNoStaleEntry | internal/adapter/repo/cached/account.go:69-86 | with evictions succeeding and no read of the id that loads before a commit and stores after its eviction, the entry is the committed row |
| WriterRaces.PromisesHold | internal/core/usecase/account/account.go:137-158 | writes of one row exclude each other, and rows loaded or cached by a reload are what their transaction will commit or has committed, in every reachable state of a faultless run |
| WriterRaces.ConcurrentCoherence | internal/core/usecase/account/account.go:137-158 | with evictions succeeding, no rollback after a cached reload and no such race, every id entry is the committed row or the row the one transaction past its eviction will commit |
| WriterRaces.EntryWhileOpen | internal/core/usecase/account/account.go:146-156 | while an update is past a successful eviction, whatever else fails, an entry of its row is the patched row stored by its own reload, or a row some read stored after that eviction |
| WriterRaces.UpdateAnswers | internal/core/usecase/account/account.go:125-159 | in every interleaving an update commits its patch of the row it locked and answers the row it commits, unless its eviction failed or a read stored an older row between eviction and reload, which is then the answer |
| WriterRaces.UpdateAnswersOldRow | internal/core/usecase/account/account.go:138-158 | for every row, update and ttl a run without fault or delay in which the update answers the row it has just replaced |
| WriterRaces.CommitLeaves | internal/core/usecase/account/account.go:127-173 | in every interleaving a committed update leaves the row it wrote over with its fields, a delete no row, an insert its row where there was none, and no other row changes |
| WriterRaces.CommitFollowsEviction | internal/adapter/repo/cached/account.go:69-86 | an update or delete that commits has tried its eviction before, after which the entry is gone unless the eviction failed |
| WriterRaces.WritesCanRun | internal/core/usecase/account/account.go:137-173 | any write of a row nobody else has locked can be written, evicted with or without success, and committed or rolled back |
| WriterRaces.EarlyEvictionServesOldRow | internal/core/usecase/account/account.go:138-158 | for every row, update and ttl a run without fault or delay serves the old row after the commit: the read falls between eviction and commit |
| WriterRaces.LateStoreServesOldRow | internal/adapter/cache/manager.go:45-54 | the same for a read that loads before the write and stores after the commit |
| WriterRaces.RolledBackRowIsServed | internal/core/usecase/account/account.go:146-156 | an update reloads, caches its row and rolls back: that row is served although the committed row never changes |
| RacingCreates.EmailsStayUnique | migrations/20260322000001_create_accounts_table.up.sql:2-3 | in every reachable state ids and exact emails are unique and every pending insert is free to commit |
| RacingCreates.StepsChangeRows | internal/core/usecase/account/account.go:96-112 | only a commit adds its row, where none clashes; an update patches one row and a delete removes one; checks, inserts and rollbacks change none |
| RacingCreates.CreatesCanEnd | internal/core/usecase/account/account.go:96-112 | a refused create inserts nothing, a checked one goes in exactly when no row clashes, and any can end |
| RacingCreates.CreatesBalance | internal/core/usecase/account/account.go:96-108 | for every email and run, successful creates less deletes is the change in its presence, 0 or 1 |
| RacingCreates.OneWinnerBetweenDeletes | internal/core/usecase/account/account.go:96-108 | between deletes at most one create of an email succeeds, none if it was present |
| RacingCreates.BothPassOneWins | internal/core/usecase/account/account.go:188-200 | two creates of one email each find no row of it and pass the check; one commits and the other is refused |
| RedisLock.Server.RunReleaseScript | internal/adapter/lock/lock.go:21-30 | deletes the key exactly when it is held with the token, and reports how many keys it deleted |
| RedisLock.Locker.Acquire | internal/adapter/lock/lock.go:42-58 | the lease and answer of an acquisition, a lost reply included; exactly the tokens answered as acquired are recorded as granted |
| RedisLock.Locker.Release | internal/adapter/lock/lock.go:60-66 | the release closure's effect and error; every call is recorded as a request for its token, whether it arrives or not |
| RedisLock.AcquireExact | internal/adapter/lock/lock.go:42-58 | not-acquired exactly for a held key with an answered request, acquired exactly for a free one, the errors of a missing token and a lost request or reply, and the lease that is left |
| RedisLock.ReleaseExact | internal/adapter/lock/lock.go:21-30 | a release that arrives frees the key exactly when the lease in force carries its token |
| RedisLock.AcquireReleaseRestores | internal/adapter/lock/lock.go:42-67 | acquire then timely release frees the key, touches no other, and a second release changes nothing |
| LockProtocol.MutualExclusion | internal/apps/worker/worker.go:126-145 | in every reachable state where those inside are within their leases, at most one replica is inside per key |
| LockProtocol.OverlapMeansExpired | internal/adapter/lock/lock.go:45-67 | with no timing assumption, of two replicas inside for one key the earlier acquirer's lease has expired |
| LockProtocol.OverrunOverlaps | internal/apps/worker/worker.go:126-145 | a run that outlasts its lease can overlap another |
| LockProtocol.ReleaseIsSafe | internal/adapter/lock/lock.go:21-30 | a release delivered at any time removes no other token's lease, no holder within its lease loses it, and delivering it again at once changes nothing |
| LockProtocol.ReleaseTwice | internal/adapter/lock/lock.go:60-65 | once a release has been delivered, delivering it again in any later state changes nothing, whoever holds the key by then |
| LockProtocol.RunKeepsInv | internal/adapter/lock/lock.go:32-67 | tokens identify acquisitions, unexpired holders own their key, earlier overlapping holders have expired: in every reachable state |
| LockProtocol.LeaseRecovers | internal/adapter/lock/lock.go:51-66 | a lease with a ttl above zero refuses nobody after that ttl, whatever became of its holder, reply or release |
| LockProtocol.LeaseBlocks | internal/adapter/lock/lock.go:51-58 | until it expires or its own release is delivered, it holds the key unchanged |
| LockProtocol.NextGrantExact | internal/adapter/lock/lock.go:42-58 | between a granted acquisition and the next one of its key, by any replicas, overlapping or not, the second is granted exactly when the first lease has run out or its release has been delivered |
| LockProtocol.AnythingCanHappen | internal/adapter/lock/lock.go:42-67 | no fate of a request, no crash and no late release is excluded from the runs, and what each leaves |
| LockProtocol.ReleasedLeasePassesOn | internal/adapter/lock/lock.go:42-67 | a run in which another replica enters once the release is delivered |
| LockProtocol.CrashedLeaseRunsOut | internal/adapter/lock/lock.go:51-58 | after its holder crashed, another replica enters exactly when the ttl has passed |
| TickCounts.ReplicaBalance | internal/apps/worker/worker.go:124-145 | for every replica in every reachable state, attempts are the skipped, the finished, those lost to a crash and the one running; those not skipped are its granted tokens; the finished are the releases it sent, of tokens granted to it, one each |
| TickCounts.AttemptsAreSteps | internal/apps/worker/worker.go:124-131 | the attempts counted are the acquisitions the replica made |
| TickCounts.SentByReplicas | internal/apps/worker/worker.go:136-140 | the releases in the network are exactly those the replicas sent |
| TickCounts.GrantsDisjoint | internal/adapter/lock/lock.go:43-50 | no token is granted to two replicas |
| Worker.Job.RunHousekeeping | internal/apps/worker/worker.go:124-145 | one tick: error exactly when the lock is granted in it and the job fails, ok exactly when granted and it does not; every acquisition error counts as skipped; a grant, and nothing else, is followed by one release request for its token on both exits |
| Worker.Job.RunTicks | internal/apps/worker/worker.go:96-122 | over any ticks of one worker, skipped, ok and error add up to the ticks; error is the number of granted ticks whose job fails and ok of the other granted ones; the releases requested are those of the granted tokens in order, each token once when no token is drawn twice |
| Worker.TicksBalance | internal/apps/worker/worker.go:126-145 | for every list of ticks the counts add up to the ticks, error counts the granted ticks whose job fails and ok the other granted ones |
| Worker.GrantsDistinct | internal/apps/worker/worker.go:126-145 | no token is granted twice when none is drawn twice, and every granted token was drawn |
| Worker.TickExact | internal/apps/worker/worker.go:124-145 | which ticks are skipped, ok or error, and the lease each leaves on the server |
| Worker.NextTickExact | internal/apps/worker/worker.go:96-145 | for every state and all faults, which of two ticks run of which the second starts after the first has ended, and when exactly one does: the first exactly when its lease is set and answered, the second exactly when it draws a token, is answered, and neither an earlier lease nor an unreleased one of the first tick stands |
| Worker.OrphanLeaseSkipsBoth | internal/adapter/lock/lock.go:51-58 | an acquisition whose reply is lost skips its own tick and, until the lease runs out, a later one with a perfect network |
| Worker.FinishedRunLetsNextRun | internal/apps/worker/worker.go:126-145 | after a run whose release arrived the next answered tick runs too |
| Worker.TickLeaves | internal/apps/worker/worker.go:126-145 | a tick leaves other keys alone, runs only when the key was free, and frees it when the release arrives |
| Consumer.ConsumerSafety | internal/adapter/kafka/consumer.go:52-96 | in every reachable state the committed position is the start or one past a handled message, all below it was fetched and handled or logged, and handled where nothing was logged |
| Consumer.RunIsSafe | internal/adapter/kafka/consumer.go:52-96 | the committed position is the highest committed offset plus one and never passes the reader, in every reachable state |
| Consumer.HighWaterIsCommit | internal/adapter/kafka/consumer.go:84-94 | that high-water mark is above an offset exactly when a commit from it on was applied |
| Consumer.FailedMessageFate | internal/adapter/kafka/consumer.go:64-94 | for a message not committed itself, a restart would resume at or before it exactly when no later message of the partition has been committed |
| Consumer.PassedIsGone | internal/adapter/kafka/consumer.go:47-51 | a message the committed position has passed is never fetched again |
| Consumer.NotSkipped | internal/adapter/kafka/consumer.go:52-62 | a message the reader moves past, restarts in between or not, was fetched |
| Consumer.FetchedAgainExactly | internal/adapter/kafka/consumer.go:52-82 | a message the reader has passed is fetched again only after a restart or crash that resumes at or before it, and exactly then once the reader has passed it again |
| Consumer.FailedIsRedeliveredExactly | internal/adapter/kafka/consumer.go:47-82 | a message not committed so far is fetched again only after a restart before which no later message of its partition had been committed, and exactly then once the reader has passed it again |
| Consumer.NoRestartNoRedelivery | internal/adapter/kafka/consumer.go:64-82 | a running consumer passes two failed messages, commits nothing and has not fetched the first again |
| Consumer.FailureCanBeLost | internal/adapter/kafka/consumer.go:74-94 | a failed message followed by a handled one is behind the resume position |
| Consumer.Loop.Run | internal/adapter/kafka/consumer.go:52-96 | cursors, history and exit of the loop for every sequence of reader, decoder, handler and broker answers, as a run of deliveries |
| Consumer.LoopFollowsTurns | internal/adapter/kafka/consumer.go:52-96 | from the turns alone: one record per message taken, in order and at the next offset; undecodable and failed messages are logged, only decoded and handled ones committed; the cursors of every partition |
| Consumer.ExitExactly | internal/adapter/kafka/consumer.go:54-61 | the exit is fatal exactly when the first turn that ends the loop is a fetch error other than a cancellation |
| Consumer.NoneHandledNoneCommitted | internal/adapter/kafka/consumer.go:64-82 | turns of which none is handled leave every committed position as it was |
| Consumer.LoopStaysSafe | internal/adapter/kafka/consumer.go:52-96 | whatever the loop does, a safe partition stays safe and its committed position does not go back |
| Backends.ChangedColumns | internal/adapter/repo/gorm/account.go:73-82 | the column map sets exactly the fields the update gives and updated_at, on every row |
| Backends.StoresDetermines | internal/adapter/repo/gorm/account.go:43-53 | stored rows represent one table only |
| Backends.PatchedRowsRefine | internal/adapter/repo/sqlc/gen/account.sql.go:154-182 | patching the matching rows is the table's update and keeps ids and emails unique; no row matches exactly when the table has none, and then nothing changes |
| Backends.WithCoalescePatches | internal/adapter/repo/sqlc/mapper.go:45-59 | COALESCE over the nullable parameters is the patch with the status cut to 32 bits, the same patch exactly when it fits |
| Backends.GormRepository.Update | internal/adapter/repo/gorm/account.go:67-95 | refines the table's update for every driver failure; an out-of-range status is an internal error and a failure changes no row |
| Backends.MongoRepository.Update | internal/adapter/repo/mongo/account.go:69-91 | refines the table's update for every status and every driver failure |
| Backends.SqlcRepository.Update | internal/adapter/repo/sqlc/account.go:68-79 | refines the table's update with the status cut to 32 bits, for every driver failure |
| Backends.UpdatesAgreeExactly | internal/adapter/repo/sqlc/mapper.go:54-57 | without a driver failure gorm and mongo yield the same table and verdict exactly when the status fits 32 bits, sqlc and mongo also when there is no row; with one, exactly when it is no unique violation, which mongo does not tell apart |
| Backends.UpdatesAnswerAs | internal/adapter/repo/mongo/account.go:84-90 | a missing row is not-found on all three, and each maps a driver failure keeping it in the chain, a unique violation told apart by gorm and sqlc only |
| Backends.TwoUpdatesMerge | internal/adapter/repo/gorm/account.go:67-95 | two successive updates of a row are the merged one, with the same not-found verdict |
| Backends.BackendsMergeUpdates | internal/adapter/repo/mongo/account.go:72-90 | two successive updates on sqlc equal the merged update on gorm and on mongo |
| Backends.InsertReadRoundTrip | internal/adapter/repo/sqlc/mapper.go:10-43 | insert then read is the identity exactly on accounts without deletion mark whose status fits 32 bits |
| Backends.ReadMapsColumns | internal/adapter/repo/sqlc/mapper.go:10-27 | reading takes each column to its field, the deletion time exactly when the column holds one |
| Paging.ListAccounts | internal/adapter/repo/sqlc/gen/account.sql.go:124-152 | the whole result set, or an error exactly when a scan or the closing fails |
| Paging.SqlcPageIsStretch | internal/adapter/repo/sqlc/account.go:93-118 | after the cut to 32 bits, no page for a negative limit or offset, else the rows from the offset on, at most limit of them, and the whole number |
| Paging.SqlcList | internal/adapter/repo/sqlc/account.go:93-118 | the page and total under the status filter cut to 32 bits, or an internal error exactly on a negative limit or offset after the cut or a failing query |
| Paging.MongoList | internal/adapter/repo/mongo/account.go:105-142 | on success the total is the number of rows matching the filter as given, and the page is the rows from the offset on, at most limit of them, all if the limit is not positive; an internal error exactly when a query fails |
| Paging.FilteredIsOrder | internal/adapter/repo/sqlc/gen/account.sql.go:111-116 | filtering the sorted rows yields a newest-first arrangement of exactly the matching rows |
| Paging.FiltersAgreeExactly | internal/adapter/repo/sqlc/mapper.go:61-69 | the cut filter selects the same rows exactly when the status fits 32 bits or no row has either status |
| Paging.ListsAgreeExactly | internal/adapter/repo/sqlc/account.go:93-118 | over rows both backends can store and for 32-bit limit and offset, both list the same page and total exactly when the filter fits or no row has the cut status, the offset is not negative, and the limit is positive or zero past the end |
| Paging.FilterWraps | internal/adapter/repo/sqlc/mapper.go:61-69 | a filter of 2^32 + 1 lists the accounts of status 1 on sqlc and none on mongo |
| Paging.PagesTile | internal/adapter/repo/mongo/account.go:118-124 | mongo pages at offsets 0, L, 2L, ... of one arrangement together are the whole list: every matching row once, newest first |
| Paging.SqlcPagesTile | internal/adapter/repo/sqlc/account.go:93-118 | sqlc cuts the same pages of that arrangement as long as n * L fits 32 bits |
| Paging.SameTimes | internal/adapter/repo/sqlc/gen/account.sql.go:111-116 | any two newest-first arrangements of the same rows have the same creation time at every position |
| Paging.TilesAlwaysExactly | internal/adapter/repo/sqlc/gen/account.sql.go:111-116 | with ties broken anew for every page, the pages are an arrangement of the matching rows whatever the choice exactly when no page boundary separates rows of equal creation time |
| Paging.TotalCountsMatches | internal/adapter/repo/sqlc/account.go:108-117 | every page reports the number of rows matching the filter, on sqlc the cut filter, whatever its limit and offset |
| Paging.FirstPagesArePrefix | internal/adapter/repo/mongo/account.go:118-124 | the first n pages are the first n * L rows of the order |
| Paging.PagesAgreeExactly | internal/adapter/repo/sqlc/account.go:99-103 | within 32 bits mongo and sqlc cut the same page exactly for a non-negative offset and a positive limit, or a zero limit past the end |
| Paging.LimitWraps | internal/adapter/repo/sqlc/account.go:101-102 | a limit of 2^32 is an empty page on sqlc and an unlimited one on mongo |

## Left out

- Letter case beyond A to Z, and invalid UTF-8: lower-casing acts on ASCII letters only.
- Whole use-case operations interleaved with each other: `AccountRuns` runs them one at a time; `WriterRaces` interleaves reads with writing transactions, and `RacingCreates` the creates.
- Failing to open a transaction: the operation then returns before its body, changing nothing.
- The pointer sharing of the in-memory cache and the value encoding on Redis: entries are values.
- A cache time to live of zero, which asks the stores for no or for a default expiry.
- The rate-limit algorithm, bcrypt, UUID and token generation: their answers are inputs.
- Page order of the gorm backend, which sorts by nothing: its limit and offset act as mongo's on whatever order the database gives.
- Rounding of timestamps by the databases.
- Kafka rebalancing and message encoding: one owner per partition, decoding succeeds or fails as an input.
- Waiting and fairness: no progress is claimed, only what every finite run keeps.
- HTTP and gRPC handlers, servers, wiring, configuration, logging, tracing, metrics exposition and migrations: plumbing.
- Password policy, status names and full names: one-branch facts.
- FailedMessageFate: assumes the message itself has not been committed on a later delivery; for those `HighWaterIsCommit` gives the position.
- Worker.Job.RunTicks: one worker alone with the server; `TickCounts.ReplicaBalance` has the other replicas and the crashes.
- Worker.NextTickExact: ticks that do not overlap; `LockProtocol.NextGrantExact` has the overlapping ones.
