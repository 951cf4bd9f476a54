# Vespera backend: verified models

Dafny models of the stateful and concurrent parts of the Vespera rental backend, with proofs
about all their inputs, runs and reachable states. A service object with fields is a class;
its methods are proved equal to functions on the state, and the properties of whole runs are
lemmas about those functions. `dafny verify dfyconfig.toml` checks everything.

| file | what it models |
|---|---|
| `Wrappers.dfy`, `Sets.dfy`, `RentContract.dfy` | shared values: options and results, set sizes, the agreement status |
| `TtlStore.dfy` | the shared keyed store with expiry (Redis, cache manager, in-memory maps) |
| `Idempotency.dfy` | `IdempotencyService`, and `process` as a protocol of any number of callers interleaving at every await |
| `Lock.dfy` | `LockService`, and `withLock` over any number of instances, with Redis calls that fail before or after taking effect |
| `Json.dfy`, `JsonCanonical.dfy` | `stableStringify`, a reader for its strings, and the proof that the text is canonical |
| `KycEncryption.dfy` | field-wise encryption, checksum and row preparation of KYC payloads |
| `OrderedQuery.dfy`, `KycMigration.dfy` | the batched migrate, verify and rollback script over rows and backups |
| `Glob.dfy` | the pattern-to-regular-expression translation, a parser and a matcher for what it produces |
| `Cache.dfy`, `SingleFlight.dfy` | the dependency indexes and invalidation; `getOrSet` as a protocol of calls and loads |
| `WebSocketSessions.dfy` | sessions, tracked id lists and the connection cap |
| `Disputes.dfy`, `DisputeRuns.dfy` | the two services that write disputes, and their mixed runs |
| `Calendar.dfy`, `PaymentSchedule.dfy`, `LeaseRenewal.dfy` | Date setters with overflow, `calculateNextRunAt`, `renew` |
| `AuthLockout.dfy` | failure counter and lock of password logins |
| `JobQueue.dfy` | the job queue and its setImmediate wakeups |
| `ApiKeys.dfy` | API keys, rotation chains, validation and the expiry sweep |

Three hypotheses stand in the statements. A run of `process` is `AllTimely` when every holder of a
reservation finishes before the reservation expires; a state is `Covered` when every holder still has a live
entry under its key, which timeliness implies. `Lawful` says that decryption undoes encryption, that the outer
cipher yields JSON values and refuses plaintext objects, and that the hash is injective. `FreshHashes` says that a new API key has a
hash no other key has.

Where the documentation promises more than the code does, the model follows the code:

- "Run `fn` at most once per key" can fail exactly when some caller holds the key without a live entry
  (`Idempotency.OverlapPossibleIff`): one whose `fn` or `complete` outlives its reservation, or one that failed
  and releases only after its entry is gone, which deletes the next caller's marker. It cannot fail while nobody
  holds a key for as long as the TTL (`Idempotency.LongHoldOverlapsIff`).
- The lock's fallback excludes callers only as far as `Lock.ExclusionFailsIff` says: inside one instance it
  fails exactly when there is a Redis client and the fallback can be used, and between instances it fails more often.
- A release after `fn` reaches Redis only while the instance counts Redis as healthy. After a failed call it does
  not, and the key stays taken until the lease expires (`Lock.NextCallerGetsInIff`).
- `getLockMode` can report `in-memory` where an acquisition without Redis is refused: exactly when the fallback
  is allowed and the instance is fail-closed or the caller requires a distributed lock (`Lock.ModeForetellsIff`).
- `?` in a cache pattern is not a literal character for the regular expression, so a pattern means the glob
  exactly when it holds none (`Glob.PatternMeansGlobIff`); and `.` stops at line terminators. A misplaced `?` makes the
  invalidation throw (`Glob.ParsesIff`, `Cache.InvalidationThrowsIff`).
- WITHDRAWN is called terminal, yet a resolution through the contract, and nothing else, moves a withdrawn
  dispute (`DisputeRuns.WithdrawnStaysIff`, `DisputeRuns.WithdrawnThenResolved`).
- One active dispute per agreement is checked on creation only; it fails exactly when a rejected dispute is
  reopened beside an active one (`DisputeRuns.OneActiveThroughoutIff`, `DisputeRuns.ReopeningAddsSecondActive`).
- Rotation keeps the old key "for transition period", but the status it gives the old key makes
  `validateKey` refuse it from then on (`ApiKeys.RotatedKeyIsRefused`).
- The tracked list of a user's connections can outgrow the cap without bound, exactly while none of its
  sessions is live (`WebSocketSessions.ListGrowsIff`, `WebSocketSessions.StaleListOutgrowsCap`); the number of
  live sessions cannot.
- On days 29 to 31 three monthly runs need not be one quarterly run (`PaymentSchedule.JanuaryThirtyFirst`);
  `PaymentSchedule.RunsEqualJumpIff` says exactly when they are.

## Model

| member | source | states |
|---|---|---|
| `Idempotency.IdempotencyService.WarnInMemoryOnce` | backend/src/common/idempotency/idempotency.service.ts:296-306 | the warning is given on the first call and on no later one |
| `Idempotency.IdempotencyService.ReadRaw` | backend/src/common/idempotency/idempotency.service.ts:258-276 | the live entry of the key, in either backend; only the in-memory map loses an expired entry that is read |
| `Idempotency.IdempotencyService.Reserve` | backend/src/common/idempotency/idempotency.service.ts:177-204 | succeeds exactly when nothing live is stored, and then leaves a pending marker for the TTL; otherwise nothing changes |
| `Idempotency.IdempotencyService.Complete` | backend/src/common/idempotency/idempotency.service.ts:207-224 | overwrites whatever is stored with the result, with the TTL raised to 1 ms in Redis |
| `Idempotency.IdempotencyService.Release` | backend/src/common/idempotency/idempotency.service.ts:227-238 | Redis loses the key whatever it holds; the in-memory map loses it only while it is pending |
| `Idempotency.StepKeepsInv` | backend/src/common/idempotency/idempotency.service.ts:144-173 | every step of every caller keeps: one holder per key, and each holder's key backed by an entry at least as long as its reservation |
| `Idempotency.RunKeepsInv` | backend/src/common/idempotency/idempotency.service.ts:129-174 | that invariant in every state of every timely run |
| `Idempotency.SingleExecution` | backend/src/common/idempotency/idempotency.service.ts:112-127 | in no state of a timely run do two callers hold one key, so `fn` is in progress at most once |
| `Idempotency.StepKeepsSettled` | backend/src/common/idempotency/idempotency.service.ts:144-173 | no step of any caller disturbs a finished result before it expires |
| `Idempotency.CompleteSettles` | backend/src/common/idempotency/idempotency.service.ts:154-157 | a successful `complete` leaves the result (as its JSON copy) with the full TTL and no holder of the key |
| `Idempotency.ResultStays` | backend/src/common/idempotency/idempotency.service.ts:129-174 | from `complete` until the TTL passes the key holds that result and no caller runs `fn` for it |
| `Idempotency.EveryReturnIsTheResult` | backend/src/common/idempotency/idempotency.service.ts:147-149 | every caller that returns on the key meanwhile returns that one value |
| `Idempotency.ReaderGetsTheResult` | backend/src/common/idempotency/idempotency.service.ts:145-149 | and every caller that reads the key meanwhile does return it |
| `Idempotency.WaiterGetsTheResult` | backend/src/common/idempotency/idempotency.service.ts:168-173 | a waiting caller that polls before its deadline reads again, and so returns that result |
| `Idempotency.PollFollowsStore` | backend/src/common/idempotency/idempotency.service.ts:144-173 | after a poll before the deadline a caller reserves, waits on or returns exactly as nothing, a marker or a result is stored |
| `Idempotency.DeadlineIsArrivalPlusTimeout` | backend/src/common/idempotency/idempotency.service.ts:139-139 | in every run a caller keeps the key and TTL it arrived with, and its deadline is the wait timeout after its arrival |
| `Idempotency.ThrowsIff` | backend/src/common/idempotency/idempotency.service.ts:158-171 | a caller throws exactly by polling at or after its deadline, by a failing store call, or by a release |
| `Idempotency.FailureReleases` | backend/src/common/idempotency/idempotency.service.ts:158-163 | a caller whose `fn` or `complete` fails throws after a release that leaves its key free |
| `Idempotency.LostAnswersTakeEffect` | backend/src/common/idempotency/idempotency.service.ts:177-238 | a Redis call whose answer is lost leaves the store as if it had been answered; one that did not arrive leaves it alone |
| `Idempotency.FailureFreesKey` | backend/src/common/idempotency/idempotency.service.ts:158-163 | after a failed `fn` and its release the next reservation of the key succeeds |
| `Idempotency.SecondCallerRunsIff` | backend/src/common/idempotency/idempotency.service.ts:144-166 | whatever a holder of the key is doing (running, completing or releasing), a new caller runs `fn` for that key if and only if no live entry is left under it; for a running or completing holder that is: its reservation has expired |
| `Idempotency.LateReleaseIff` | backend/src/common/idempotency/idempotency.service.ts:227-238 | around a release, which deletes another caller's marker too, two new callers both run `fn` if and only if the releasing one had no live entry left |
| `Idempotency.ResultLastsItsTtl` | backend/src/common/idempotency/idempotency.service.ts:207-224 | a successful caller returns its own value; a new caller returns the stored copy before the TTL has passed, and runs `fn` from then on |
| `Idempotency.ShortTtlKeepsOneMillisecond` | backend/src/common/idempotency/idempotency.service.ts:223-223 | with a TTL of zero or less a result is seen by a new caller exactly with Redis and at the same instant |
| `Idempotency.ReleaseSparesResultIff` | backend/src/common/idempotency/idempotency.service.ts:227-238 | a release leaves no marker; a finished result survives it in memory and not in Redis |
| `Idempotency.OverlapNeedsLateHolder` | backend/src/common/idempotency/idempotency.service.ts:112-127 | in every run no two callers run `fn` for one key in a state before which every holder always had a live entry |
| `Idempotency.InstantPathKeepsCover` | backend/src/common/idempotency/idempotency.service.ts:144-173 | steps that take no time never leave a holder without a live entry |
| `Idempotency.OverlapsAtOnceIff` | backend/src/common/idempotency/idempotency.service.ts:144-173 | in every state of the invariant, with positive TTLs, two callers can come to run `fn` for one key without time passing if and only if some holder has no live entry left |
| `Idempotency.OverlapPossibleIff` | backend/src/common/idempotency/idempotency.service.ts:112-127 | the same over runs with positive TTLs: while all earlier states were covered nothing overlaps, and an overlap is at once possible if and only if now some holder has no live entry, which for a running or completing one means that its reservation has expired |
| `Idempotency.LongHoldOverlapsIff` | backend/src/common/idempotency/idempotency.service.ts:177-224 | for every key and positive TTL: if nobody holds a key for more than `d`, from its reservation to the end of its complete or release, no run has two callers run `fn` at once when `d` is below the TTL, and some run has otherwise |
| `Lock.LockService.constructor` | backend/src/common/lock/lock.service.ts:50-60 | fail-closed and fallback default to the environment: production fails closed, otherwise the fallback is allowed |
| `Lock.LockService.CheckRedisHealth` | backend/src/common/lock/lock.service.ts:81-95 | healthy exactly when there is a client and it answers the ping |
| `Lock.ModeForetellsIff` | backend/src/common/lock/lock.service.ts:107-111 | after a failed Redis call mode `fail-closed` means that the acquisition is refused; the mode tells refusals exactly, unless the fallback flag is set and the instance is fail-closed or the caller requires a distributed lock, when it reads `in-memory` and the acquisition is refused |
| `Lock.LockService.AcquireLock` | backend/src/common/lock/lock.service.ts:113-168 | result, Redis, local map and health flag for every configuration and every way the Redis call can fail |
| `Lock.LockService.ReleaseLock` | backend/src/common/lock/lock.service.ts:170-191 | result and both stores for every way the script call can fail, including the fall-through to the local map |
| `Lock.AcquireSucceedsIff` | backend/src/common/lock/lock.service.ts:113-168 | the lease is given exactly when the store that decides holds no live one; each error exactly under its condition |
| `Lock.ReleaseFreesRedis` | backend/src/common/lock/lock.service.ts:170-178 | an answered release of a lease live in Redis reports success, and then every instance with Redis gets the key |
| `Lock.ReleaseFreesLocal` | backend/src/common/lock/lock.service.ts:184-190 | a release without an answer of Redis succeeds exactly when the local map holds the token, and frees the key there |
| `Lock.AcquireThenRelease` | backend/src/common/lock/lock.service.ts:113-191 | while it lasts, a lease taken from Redis is released with success and nothing else changes, whatever the health flag was before |
| `Lock.LostAnswerBlocks` | backend/src/common/lock/lock.service.ts:130-139 | an acquisition whose answer is lost keeps everyone else out of the key until its entry expires, and no longer |
| `Lock.ReleaseRemovesOnlyOwnToken` | backend/src/common/lock/lock.service.ts:32-38 | in every mode, whatever a release removes from either store held the caller's own token, and nothing else changes |
| `Lock.AcquireKeepsRecorded` | backend/src/common/lock/lock.service.ts:113-168 | another caller's acquisition leaves every recorded live lease where it is |
| `Lock.ReleaseKeepsRecorded` | backend/src/common/lock/lock.service.ts:170-191 | another caller's release leaves every recorded live lease where it is |
| `Lock.StepKeepsInv` | backend/src/common/lock/lock.service.ts:193-230 | every step of every instance keeps tokens distinct and live leases recorded |
| `Lock.RunKeepsInv` | backend/src/common/lock/lock.service.ts:193-230 | that invariant in every state of every run |
| `Lock.DistributedExclusion` | backend/src/common/lock/lock.service.ts:142-155 | two callers that never use the fallback (by request, by fail-closed or because it is disabled) are never both inside one key with live leases, over any instances and failures |
| `Lock.LocalExclusion` | backend/src/common/lock/lock.service.ts:157-167 | callers of one instance built without Redis exclude each other |
| `Lock.FailClosedKeepsNoLocalLocks` | backend/src/common/lock/lock.service.ts:142-155 | the local map of an instance that is fail-closed or allows no fallback stays empty for ever |
| `Lock.FallbackBreaksExclusion` | backend/src/common/lock/lock.service.ts:157-167 | for every pair of instances that the condition below names, every free key, every TTL within the limit and every clock: a run in which callers of the two hold the key at once |
| `Lock.UnbreakableExcludes` | backend/src/common/lock/lock.service.ts:128-167 | where the condition fails for both orders, no run brings callers of the two instances into one key at once |
| `Lock.ExclusionFailsIff` | backend/src/common/lock/lock.service.ts:142-167 | callers of two instances can hold one key at once if and only if one of them may fall back while the other has Redis, or, for two different instances, may fall back too |
| `Lock.OneInstanceExcludesIff` | backend/src/common/lock/lock.service.ts:142-167 | callers of one instance always exclude each other if and only if it has no Redis, is fail-closed or allows no fallback |
| `Lock.NextCallerGetsInIff` | backend/src/common/lock/lock.service.ts:220-229 | in every run, when a caller whose live lease is in Redis leaves, the next caller that asks Redis gets in if and only if the leaving instance counts Redis as healthy |
| `Lock.NextLocalCallerGetsIn` | backend/src/common/lock/lock.service.ts:184-190 | in every run of an instance without Redis the next caller gets in when one with a live lease leaves |
| `Lock.AttemptsAreCounted` | backend/src/common/lock/lock.service.ts:206-218 | in every run a caller makes at most `retryCount + 1` attempts, and gives up only after that many |
| `Json.LessIsStrictOrder` | backend/src/modules/kyc/kyc-encryption.util.ts:39-39 | the order used for keys is a strict total order on code units |
| `Json.ReadBodyUndoesQuote` | backend/src/modules/kyc/kyc-encryption.util.ts:44-44 | reading a quoted string back gives the string and the rest of the text, surrogates and control characters included |
| `Json.QuoteIsUniquelyReadable` | backend/src/modules/kyc/kyc-encryption.util.ts:44-44 | two quoted strings followed by anything print alike only if they are equal |
| `Json.QuotedIsClean` | backend/src/modules/kyc/kyc-encryption.util.ts:44-44 | a quoted string holds no control unit and no unpaired surrogate |
| `Json.QuotedUnchangedIff` | backend/src/modules/kyc/kyc-encryption.util.ts:44-44 | quoting leaves a string as it is if and only if it holds no control unit, quote, backslash or unpaired surrogate |
| `JsonCanonical.UniquelyReadable` | backend/src/modules/kyc/kyc-encryption.util.ts:32-45 | printed values that start equal texts have equal meaning and equal rests |
| `JsonCanonical.EqualPrintsAlike` | backend/src/modules/kyc/kyc-encryption.util.ts:37-41 | values that differ only in the order of object keys print alike |
| `JsonCanonical.SortSorts` | backend/src/modules/kyc/kyc-encryption.util.ts:38-40 | sorting the members gives them in increasing key order without changing what they mean |
| `JsonCanonical.StableStringifyIsCanonical` | backend/src/modules/kyc/kyc-encryption.util.ts:32-45 | two JSON values print equally if and only if they are equal with objects read as finite maps |
| `KycEncryption.SensitiveFieldsDistinct` | backend/src/modules/kyc/kyc-encryption.util.ts:6-20 | no sensitive field is listed twice |
| `KycEncryption.SensitiveNames` | backend/src/modules/kyc/kyc-encryption.util.ts:6-20 | the thirteen sensitive fields by name |
| `KycEncryption.EncryptSensitiveFields` | backend/src/modules/kyc/kyc-encryption.util.ts:72-92 | the loop encrypts every sensitive field that is present, not null and not empty, and no other entry |
| `KycEncryption.DecryptSensitiveFields` | backend/src/modules/kyc/kyc-encryption.util.ts:94-114 | the loop decrypts every sensitive field that decrypts, and leaves the rest |
| `KycEncryption.EncryptedEntryIs` | backend/src/modules/kyc/kyc-encryption.util.ts:72-92 | an entry changes exactly when it is sensitive, not null and not empty; its cipher text then decrypts to the string or the JSON text it was |
| `KycEncryption.DecryptedEntryIs` | backend/src/modules/kyc/kyc-encryption.util.ts:94-114 | a sensitive string that decrypts becomes its plain text; one that does not, and every other entry, is left alone |
| `KycEncryption.ParsePayloadIff` | backend/src/modules/kyc/kyc-encryption.util.ts:47-60 | which values give which payload: a record itself, text exactly the record it parses to; everything else is refused |
| `KycEncryption.FieldRoundTrip` | backend/src/modules/kyc/kyc-encryption.util.ts:28-30 | a field comes back as itself if and only if it is a string or null, else as its JSON text |
| `KycEncryption.PayloadRoundTrip` | backend/src/modules/kyc/kyc-encryption.util.ts:72-114 | what every entry of a payload becomes after encryption and decryption |
| `KycEncryption.NormByPosition` | backend/src/modules/kyc/kyc-encryption.util.ts:135-140 | records with the same keys in the same places mean the same if and only if every value does |
| `KycEncryption.ChecksumSurvivesIff` | backend/src/modules/kyc/kyc-encryption.util.ts:135-140 | the checksum after a round trip equals the checksum before if and only if every sensitive field is a string or null |
| `KycEncryption.PreparedVerifiesIff` | backend/src/modules/kyc/kyc-encryption.util.ts:142-181 | a prepared payload passes its own verification if and only if every sensitive field is a string or null |
| `KycEncryption.VerifiesIff` | backend/src/modules/kyc/kyc-encryption.util.ts:163-181 | a stored payload passes against the checksum of a record if and only if it decrypts to a record that means the same |
| `KycEncryption.PrepareRowAcceptsIff` | backend/src/modules/kyc/kyc-data-migration.util.ts:38-81 | exactly which rows are accepted as encrypted, accepted as plaintext, refused as empty and refused for integrity |
| `KycEncryption.AcceptedRowIsSound` | backend/src/modules/kyc/kyc-data-migration.util.ts:58-81 | an accepted row keeps its original text; a plaintext one carries that text's checksum and a value that passes against it |
| `KycEncryption.ParseBatchSize` | backend/src/modules/kyc/kyc-data-migration.util.ts:26-36 | the argument itself when it is a positive integer, and the fallback in every other case |
| `KycEncryption.BatchSizeIsPositive` | backend/src/modules/kyc/kyc-data-migration.util.ts:9-9 | with the script's fallback the batch size is positive, as the batch loops need |
| `OrderedQuery.OrderBy` | backend/scripts/kyc-data-migration.ts:72-72 | the rows of a set in the order of the query, each once |
| `OrderedQuery.EnumerationIsUnique` | backend/scripts/kyc-data-migration.ts:184-185 | an ordered query has one answer, so paging by offset sees one list |
| `KycMigration.Migrator.MigrateRow` | backend/scripts/kyc-data-migration.ts:87-127 | a refused row changes nothing; otherwise it gets a backup of that instant and, if plaintext, its encrypted payload and version 1 |
| `KycMigration.Migrator.SelectPending` | backend/scripts/kyc-data-migration.ts:63-77 | the first rows without a backup by creation time and id, at most the batch size, none twice |
| `KycMigration.Migrator.MigrateBatch` | backend/scripts/kyc-data-migration.ts:52-137 | a whole batch or nothing; the rows without a backup shrink by what it counts |
| `KycMigration.Migrator.RunMigration` | backend/scripts/kyc-data-migration.ts:139-163 | terminates; succeeds exactly when no pending row is refused, and then every row has a backup and the totals add up |
| `KycMigration.Migrator.MigrateNextBatch` | backend/scripts/kyc-data-migration.ts:146-157 | an empty batch means that every row has a backup by then; a failed one that a row was refused from the start |
| `KycMigration.Migrator.VerifyRow` | backend/scripts/kyc-data-migration.ts:203-245 | accepts a row exactly when it meets the condition for its format and rollback mark, which `RowVerifiesIff` says in terms of what the row holds |
| `KycMigration.Migrator.VerifyMigration` | backend/scripts/kyc-data-migration.ts:165-251 | accepts exactly when every backed-up row passes, having visited each exactly once in order; by `AcceptsIffIntact` these are the tables whose backed-up rows are intact |
| `KycMigration.RowVerifiesIff` | backend/scripts/kyc-data-migration.ts:203-245 | a backed-up row passes if and only if it is intact: the original text after a rollback, some record if it was encrypted before, else a record that means the same as the original |
| `KycMigration.AcceptsIffIntact` | backend/scripts/kyc-data-migration.ts:165-251 | so tables with sound backups are accepted if and only if every backed-up row is intact; a row overwritten since is rejected |
| `KycMigration.RunBackupsAreSound` | backend/scripts/kyc-data-migration.ts:90-108 | the backups of every run are sound |
| `KycMigration.Migrator.RestoreRow` | backend/scripts/kyc-data-migration.ts:285-312 | the row gets payload and version of its backup, which is marked with that instant; nothing else changes |
| `KycMigration.Migrator.SelectRestorable` | backend/scripts/kyc-data-migration.ts:260-273 | the last plaintext backups that are not rolled back, latest first |
| `KycMigration.PageIsEarliest` | backend/scripts/kyc-data-migration.ts:63-77 | no row outside a page of the migration comes before one inside it, by creation time and then id |
| `KycMigration.PageIsLatest` | backend/scripts/kyc-data-migration.ts:260-273 | no backup outside a page of the rollback comes after one inside it, by its time and then id |
| `KycMigration.Migrator.RollbackBatch` | backend/scripts/kyc-data-migration.ts:280-317 | restores exactly the page it selected; what is left to roll back shrinks by its size |
| `KycMigration.Migrator.RollbackMigration` | backend/scripts/kyc-data-migration.ts:253-329 | terminates and restores exactly the plaintext backups that were not rolled back, leaving none |
| `KycMigration.MigratedCompose` | backend/scripts/kyc-data-migration.ts:146-162 | two migrations in a row are one migration of both row sets |
| `KycMigration.RolledBackCompose` | backend/scripts/kyc-data-migration.ts:259-328 | two rollbacks in a row are one rollback of both row sets |
| `KycMigration.MigrationKeepsInv` | backend/scripts/kyc-data-migration.ts:139-163 | any part of a migration keeps every row consistent with its original |
| `KycMigration.RollbackKeepsInv` | backend/scripts/kyc-data-migration.ts:253-329 | any part of a rollback keeps every row consistent with its original |
| `KycMigration.RunKeepsInv` | backend/scripts/kyc-data-migration.ts:52-329 | in every state of any mix of migrations, rollbacks and aborted batches: rows without backup untouched, backed-up rows original or matching the checksum |
| `KycMigration.FullRollbackRestores` | backend/scripts/kyc-data-migration.ts:290-303 | once nothing is left to roll back every payload and version is the original, a null version of a migrated row being 0 |
| `KycMigration.InvVerifies` | backend/scripts/kyc-data-migration.ts:203-245 | in every such state each backed-up row passes verification |
| `KycMigration.RunVerifies` | backend/scripts/kyc-data-migration.ts:165-251 | so in every state of every run the condition under which `verifyMigration` accepts holds |
| `KycMigration.MigratingAgainChangesNothing` | backend/scripts/kyc-data-migration.ts:62-82 | migrating a fully backed-up table changes nothing |
| `KycMigration.RollingBackAgainChangesNothing` | backend/scripts/kyc-data-migration.ts:267-278 | rolling back a fully rolled-back table changes nothing |
| `Glob.BodyParses` | backend/src/common/cache/cache.service.ts:205-209 | the escaped text parses back to the pattern's literals and stars |
| `Glob.MatchGivesGaps` | backend/src/common/cache/cache.service.ts:210-210 | a match of the parsed pattern yields a gap for every star |
| `Glob.GapsGiveMatch` | backend/src/common/cache/cache.service.ts:210-210 | gaps without line terminators yield a match |
| `Glob.RegexMeansGlob` | backend/src/common/cache/cache.service.ts:204-211 | for every pattern without `?` and every value: accepted if and only if the pieces occur in order with gaps free of line terminators |
| `Glob.RegexMeansGlobOnCleanValues` | backend/src/common/cache/cache.service.ts:204-211 | for every pattern without `?` and every value without line terminators: accepted if and only if it matches the `*` glob |
| `Glob.QuestionMarkBreaksGlob` | backend/src/common/cache/cache.service.ts:207-207 | every pattern with `?` fails to be the glob: it is no regular expression, or accepts a value the glob refuses |
| `Glob.PatternMeansGlobIff` | backend/src/common/cache/cache.service.ts:204-211 | for every pattern: it means the glob with gaps free of line terminators on every value if and only if it holds no `?`; and a pattern without line terminators means the `*` glob on every value without them under the same condition |
| `Glob.ParsesIff` | backend/src/common/cache/cache.service.ts:205-209 | a pattern gives a regular expression if and only if each `?` has something to quantify: at most two after a literal, one after a star, none at the start |
| `Glob.TagMatchesMeansGlob` | backend/src/common/cache/cache.service.ts:197-202 | tag matching is the glob on clean tags for patterns without `*` or without `?` |
| `Cache.CacheService.Lookup` | backend/src/common/cache/cache.service.ts:34-42 | the live value, and one hit or one miss |
| `Cache.CacheService.RegisterKeyDependencies` | backend/src/common/cache/cache.service.ts:159-168 | the key has exactly the new tags, and both indexes stay inverse with no empty tag |
| `Cache.CacheService.UnregisterKey` | backend/src/common/cache/cache.service.ts:170-183 | the key leaves both indexes, which stay inverse with no empty tag |
| `Cache.CacheService.SetValue` | backend/src/common/cache/cache.service.ts:44-55 | stores the value for the TTL given, or for the store's default; tags are replaced only when some are given |
| `Cache.CacheService.KeysFromDependencyTags` | backend/src/common/cache/cache.service.ts:185-195 | exactly the keys registered under some tag that the pattern matches, or nothing when comparing a tag throws |
| `Cache.CacheService.DeleteKey` | backend/src/common/cache/cache.service.ts:230-234 | the key leaves the store and both indexes |
| `Cache.CacheService.Invalidate` | backend/src/common/cache/cache.service.ts:94-108 | exactly the named and tagged keys leave store and index; when the pattern is no regular expression nothing changes |
| `Cache.InvalidationThrowsIff` | backend/src/common/cache/cache.service.ts:94-99 | invalidation throws if and only if some tag is registered and the pattern has a `*` and a misplaced `?` |
| `Cache.CacheService.BeginGetOrSet` | backend/src/common/cache/cache.service.ts:67-70 | joins the load in flight for the key or becomes it |
| `Cache.CacheService.EndLoad` | backend/src/common/cache/cache.service.ts:81-83 | the key leaves the in-flight map |
| `Cache.InverseAfterRemoval` | backend/src/common/cache/cache.service.ts:175-182 | removing a key from its tags, dropping emptied tags, keeps the indexes inverse |
| `Cache.InverseAfterInsertion` | backend/src/common/cache/cache.service.ts:161-167 | adding a key to its tags keeps the indexes inverse |
| `Cache.IndexesAgree` | backend/src/common/cache/cache.service.ts:25-28 | a key is listed under a tag if and only if the tag is listed under the key; a tag exists only with a key |
| `Cache.InvalidateClears` | backend/src/common/cache/cache.service.ts:90-108 | after `invalidate(p)` no stored key matches by name, no key tagged by a matching tag is stored or indexed, and all other keys keep their values |
| `SingleFlight.StepKeepsInv` | backend/src/common/cache/cache.service.ts:61-88 | every step of every call keeps the in-flight map equal to the running loads, one per key |
| `SingleFlight.RunKeepsInv` | backend/src/common/cache/cache.service.ts:61-88 | that invariant in every state of every interleaving |
| `SingleFlight.AtMostOneLoadPerKey` | backend/src/common/cache/cache.service.ts:67-87 | at most one load per key is running at any time |
| `SingleFlight.PromisesAreStable` | backend/src/common/cache/cache.service.ts:72-87 | a call keeps its load and a settled load keeps its outcome for ever |
| `SingleFlight.ArrivingCallSharesOutcome` | backend/src/common/cache/cache.service.ts:67-70 | a call that arrives during a load starts none, receives nothing before that load settles, and from then on has received its value or error |
| `SingleFlight.SettlingFreesKey` | backend/src/common/cache/cache.service.ts:73-83 | a load that settles, with a value or an error, leaves its key free; a stored value is then readable |
| `SingleFlight.CallStartsLoadIff` | backend/src/common/cache/cache.service.ts:67-87 | a call starts a load exactly when no load of its key is running |
| `SingleFlight.LoadIsItsCalls` | backend/src/common/cache/cache.service.ts:61-79 | in every run a load keeps the key and TTL of the call that started it |
| `SingleFlight.CheckCallsFactoryIff` | backend/src/common/cache/cache.service.ts:74-78 | the factory is called exactly when no live value is cached; otherwise the cached value is the outcome |
| `SingleFlight.SettlesWith` | backend/src/common/cache/cache.service.ts:73-83 | exactly which step settles a load, and with which value or error |
| `SingleFlight.StoredValueIsTheFactorys` | backend/src/common/cache/cache.service.ts:74-79 | in every run a value that a load stores came from its factory, after a check that found nothing live |
| `WebSocketSessions.WebSocketSessionService.RemoveUserConnection` | backend/src/modules/messaging/websocket-session.service.ts:162-173 | rewrites the user's list without the id, with a full TTL |
| `WebSocketSessions.WebSocketSessionService.DeleteSession` | backend/src/modules/messaging/websocket-session.service.ts:95-102 | the session is gone and, if it was live, out of its user's list |
| `WebSocketSessions.WebSocketSessionService.EvictOldestConnection` | backend/src/modules/messaging/websocket-session.service.ts:175-186 | deletes the listed live session connected first, if there is one |
| `WebSocketSessions.WebSocketSessionService.CreateSession` | backend/src/modules/messaging/websocket-session.service.ts:28-60 | evicts at the cap, then stores and lists the new session |
| `WebSocketSessions.WebSocketSessionService.UpdateActivity` | backend/src/modules/messaging/websocket-session.service.ts:76-93 | renews a live session for the idle time, never past 24 hours from its connection |
| `WebSocketSessions.WebSocketSessionService.ValidateSession` | backend/src/modules/messaging/websocket-session.service.ts:104-116 | true exactly for a live session that is not idle; an idle one is deleted |
| `WebSocketSessions.WebSocketSessionService.DeleteAllUserSessions` | backend/src/modules/messaging/websocket-session.service.ts:133-137 | deletes every listed session of the user and the list |
| `WebSocketSessions.ValidIff` | backend/src/modules/messaging/websocket-session.service.ts:104-116 | a session is valid if and only if it is live and was active in the last 30 minutes; otherwise it is not live afterwards |
| `WebSocketSessions.TouchActivates` | backend/src/modules/messaging/websocket-session.service.ts:76-93 | activity makes a live session last 30 minutes more, or to the end of its 24 hours |
| `WebSocketSessions.ActiveSessionIsValid` | backend/src/modules/messaging/websocket-session.service.ts:76-116 | in every run a session stays valid after activity for 30 minutes within its 24 hours, unless it is removed or its user connects again |
| `WebSocketSessions.NewSessionIsValid` | backend/src/modules/messaging/websocket-session.service.ts:41-56 | in every run the same holds for a new session |
| `WebSocketSessions.LiveAreListed` | backend/src/modules/messaging/websocket-session.service.ts:141-160 | a user's live sessions are all in that user's live list |
| `WebSocketSessions.RoomIsMade` | backend/src/modules/messaging/websocket-session.service.ts:32-39 | before a session is added fewer than five of the user's sessions are live |
| `WebSocketSessions.EvictsTheOldest` | backend/src/modules/messaging/websocket-session.service.ts:175-186 | an eviction ends exactly one live session of the user, and none was connected before it |
| `WebSocketSessions.OldestIsListedFirst` | backend/src/modules/messaging/websocket-session.service.ts:179-182 | of several sessions connected first, the one listed first is evicted |
| `WebSocketSessions.ActivityNeverDeletes` | backend/src/modules/messaging/websocket-session.service.ts:84-90 | the branch that deletes a session on activity is never taken in a reachable state |
| `WebSocketSessions.DeletedAllKeeps` | backend/src/modules/messaging/websocket-session.service.ts:133-137 | deleting all of a user's sessions leaves none of them live and touches no other user's |
| `WebSocketSessions.StepKeepsInv` | backend/src/modules/messaging/websocket-session.service.ts:28-137 | every operation keeps each live session in a list that lasts at least as long, and the cap |
| `WebSocketSessions.AtMostFiveLiveSessions` | backend/src/modules/messaging/websocket-session.service.ts:16-18 | in every reachable state a user has at most five live sessions, each within 24 hours of its connection |
| `WebSocketSessions.ListGrowsIff` | backend/src/modules/messaging/websocket-session.service.ts:32-39 | with the cap reached, a new session makes the list longer if and only if none of the listed sessions is live |
| `WebSocketSessions.ListOutgrowsCapIff` | backend/src/modules/messaging/websocket-session.service.ts:32-56 | a list within the cap outgrows it if and only if it is full and none of its sessions is live |
| `WebSocketSessions.StaleListOutgrowsCap` | backend/src/modules/messaging/websocket-session.service.ts:149-160 | for every user and every list of distinct ids, however long, a run that ends with exactly that tracked list and no live session |
| `Disputes.DisputesService.CreateDispute` | backend/src/modules/disputes/disputes.service.ts:71-153 | every refusal with its error and no change; otherwise a new OPEN dispute and a DISPUTED agreement |
| `Disputes.DisputesService.Update` | backend/src/modules/disputes/disputes.service.ts:282-304 | every refusal with its error and no change; otherwise only the status moves along the transition table |
| `Disputes.DisputesService.ResolveDispute` | backend/src/modules/disputes/disputes.service.ts:380-428 | only an admin and only from UNDER_REVIEW; the agreement returns to ACTIVE if it was DISPUTED |
| `Disputes.DisputeBlockchainService.AddArbiter` | backend/src/modules/disputes/dispute-blockchain.service.ts:27-50 | a new arbiter with zero totals, unless the address exists or the contract call fails |
| `Disputes.DisputeBlockchainService.SubmitVote` | backend/src/modules/disputes/dispute-blockchain.service.ts:82-150 | one stored vote and one more on the counter of its side and on the arbiter, or no change with the reason |
| `Disputes.DisputeBlockchainService.ResolveDispute` | backend/src/modules/disputes/dispute-blockchain.service.ts:152-200 | RESOLVED with an outcome and one more resolved dispute for every stored vote, or no change |
| `DisputeRuns.ResolvedIsFrozen` | backend/src/modules/disputes/dispute-blockchain.service.ts:162-164 | no operation of either service changes a RESOLVED dispute |
| `DisputeRuns.ResolvedIsAbsorbing` | backend/src/modules/disputes/disputes.service.ts:393-397 | so in every run a RESOLVED dispute stays as it is |
| `DisputeRuns.CreationIff` | backend/src/modules/disputes/disputes.service.ts:80-141 | exactly who may open a dispute and when, and what changes then |
| `DisputeRuns.TransitionIff` | backend/src/modules/disputes/disputes.service.ts:505-529 | the six transitions of the table |
| `DisputeRuns.UpdateIff` | backend/src/modules/disputes/disputes.service.ts:469-500 | exactly who may update a dispute and when: an admin always, the initiator and the parties while it is OPEN |
| `DisputeRuns.AdminResolutionIff` | backend/src/modules/disputes/disputes.service.ts:385-417 | only an admin and only under review; what becomes of dispute and agreement |
| `DisputeRuns.RefusalsOfDisputesService` | backend/src/modules/disputes/disputes.service.ts:86-120 | which error each refused call gives |
| `DisputeRuns.VoteIff` | backend/src/modules/disputes/dispute-blockchain.service.ts:88-127 | exactly which votes are taken |
| `DisputeRuns.ChainResolutionIff` | backend/src/modules/disputes/dispute-blockchain.service.ts:152-183 | exactly which disputes are resolved, with the outcome that the contract gave |
| `DisputeRuns.RefusalsOfBlockchainService` | backend/src/modules/disputes/dispute-blockchain.service.ts:93-107 | which error each refused call gives; a call refused for its input does not reach the contract |
| `DisputeRuns.InitiatorIsParty` | backend/src/modules/disputes/disputes.service.ts:99-106 | in every run the initiator of a dispute is a party of its agreement or an admin |
| `DisputeRuns.ResolutionHasAuthority` | backend/src/modules/disputes/disputes.service.ts:387-391 | in every run a RESOLVED dispute was resolved by an admin or through the contract |
| `DisputeRuns.OutcomeIsTheContracts` | backend/src/modules/disputes/dispute-blockchain.service.ts:170-177 | in every run the outcome that a dispute carries is the one the contract gave for it |
| `DisputeRuns.WithdrawnMovesIff` | backend/src/modules/disputes/dispute-blockchain.service.ts:162-174 | a step moves a WITHDRAWN dispute if and only if it resolves that dispute through the contract, and then to RESOLVED |
| `DisputeRuns.WithdrawnStaysIff` | backend/src/modules/disputes/disputes.service.ts:505-529 | in every run a WITHDRAWN dispute stays so if and only if no later step resolves it through the contract; otherwise it is RESOLVED |
| `DisputeRuns.WithdrawnThenResolved` | backend/src/modules/disputes/dispute-blockchain.service.ts:152-183 | for every party of every agreement, a run that opens a dispute, withdraws it and then resolves it |
| `DisputeRuns.VoteKeepsTallied` | backend/src/modules/disputes/dispute-blockchain.service.ts:119-142 | a vote keeps all tallies equal to the stored votes |
| `DisputeRuns.CreditedCounts` | backend/src/modules/disputes/dispute-blockchain.service.ts:186-193 | the loop credits each arbiter once per vote on the dispute and no one else |
| `DisputeRuns.ChainResolveKeepsTallied` | backend/src/modules/disputes/dispute-blockchain.service.ts:173-193 | an on-chain resolution keeps all tallies |
| `DisputeRuns.RunIsTallied` | backend/src/modules/disputes/dispute-blockchain.service.ts:97-193 | in every mixed run: one vote per arbiter and dispute, counters equal to votes per side, arbiter totals equal to their votes and to those on disputes resolved on chain |
| `DisputeRuns.StepBoundsActive` | backend/src/modules/disputes/disputes.service.ts:108-120 | only a creation (from none active) or a reopening adds an active dispute |
| `DisputeRuns.ActiveBoundedByReopenings` | backend/src/modules/disputes/disputes.service.ts:509-528 | in every run the active disputes of an agreement number at most one plus its reopenings so far |
| `DisputeRuns.ActiveDisputeMeansDisputed` | backend/src/modules/disputes/disputes.service.ts:138-141 | in every run without a reopening of its disputes, an agreement with an active dispute is DISPUTED |
| `DisputeRuns.SecondActiveIff` | backend/src/modules/disputes/disputes.service.ts:108-120 | from at most one active dispute of an agreement, a step leads to more if and only if it reopens a rejected one beside an active one |
| `DisputeRuns.OneActiveThroughoutIff` | backend/src/modules/disputes/disputes.service.ts:108-120 | in every run an agreement has at most one active dispute throughout if and only if no step reopens one beside an active one |
| `DisputeRuns.FlagIsLostIff` | backend/src/modules/disputes/disputes.service.ts:412-417 | an agreement with an active dispute stops being DISPUTED if and only if a dispute is reopened while it is not, or an admin resolves one of several active disputes |
| `DisputeRuns.FlaggedThroughoutIff` | backend/src/modules/disputes/disputes.service.ts:138-141 | in every run each active dispute finds its agreement DISPUTED throughout if and only if no such step occurs |
| `DisputeRuns.ReopeningAddsSecondActive` | backend/src/modules/disputes/disputes.service.ts:520-520 | for every agreement and admin, a run that reaches two active disputes by reopening, and then an active dispute on an ACTIVE agreement |
| `Calendar.DayFromYearFormula` | backend/src/modules/payments/payment.helpers.ts:37-44 | the day count by whole years equals the closed formula of section 21.4.1 of ECMA-262 |
| `Calendar.MonthTable` | backend/src/modules/payments/payment.helpers.ts:37-41 | the days before each month are those of the table in section 21.4.1 of ECMA-262 |
| `Calendar.NormalizeKeepsDay` | backend/src/modules/payments/payment.helpers.ts:22-26 | carrying an overflowing day into other months lands on a valid date of the same day number |
| `Calendar.CivilIsUnique` | backend/src/modules/payments/payment.helpers.ts:22-48 | a day number and time of day belong to one valid date, so each setter's result is determined by the day it names |
| `Calendar.WithMonthIsMakeDay` | backend/src/modules/payments/payment.helpers.ts:37-41 | `setMonth` lands on the day that MakeDay gives for the month number and the old day |
| `Calendar.JumpFrom` | backend/src/modules/payments/payment.helpers.ts:36-41 | a jump of whole months keeps the day of the month, or overflows into the month after by exactly the excess |
| `PaymentSchedule.AddDays` | backend/src/modules/payments/payment.helpers.ts:22-26 | a new date exactly that many days later at the same time; the argument is unchanged |
| `PaymentSchedule.CalculateNextRunAt` | backend/src/modules/payments/payment.helpers.ts:28-48 | the next date for every interval and for values outside the enumeration; the argument is unchanged |
| `PaymentSchedule.NextRunAdvances` | backend/src/modules/payments/payment.helpers.ts:33-47 | always later: by 7 days, the month's length, 89 to 92 days, the year's length, or 30 days |
| `PaymentSchedule.RunsEqualJumpIff` | backend/src/modules/payments/payment.helpers.ts:36-41 | n monthly runs equal one jump of n months if and only if the first month too short for the day is the last one or as long as it, or none is |
| `PaymentSchedule.YearIsTwelveMonths` | backend/src/modules/payments/payment.helpers.ts:42-44 | a yearly run is a jump of twelve months, for every date |
| `PaymentSchedule.IntervalsCompose` | backend/src/modules/payments/payment.helpers.ts:36-44 | for day of month up to 28, three monthly runs are one quarterly and twelve are one yearly |
| `PaymentSchedule.JanuaryThirtyFirst` | backend/src/modules/payments/payment.helpers.ts:36-41 | from 31 January three monthly runs end on 3 May, one quarterly run on 1 May |
| `LeaseRenewal.Agreement.Renew` | backend/src/modules/agreements/agreements.service.ts:147-168 | refused with the right message unless renewal is allowed; otherwise the end moves by the months and EXPIRED becomes ACTIVE |
| `LeaseRenewal.ExtensionReaches` | backend/src/modules/agreements/agreements.service.ts:156-160 | an extension by k months moves the end by 28k to 31k days, for every k |
| `LeaseRenewal.DefaultExtensionIsAYear` | backend/src/modules/agreements/agreements.service.ts:156-156 | the default extension moves the end by the length of one year |
| `LeaseRenewal.ExtensionMoves` | backend/src/modules/agreements/agreements.service.ts:156-160 | how far a renewal moves the end, by the months asked for or by default |
| `LeaseRenewal.RenewalsComposeIff` | backend/src/modules/agreements/agreements.service.ts:157-160 | renewing by j and then k months ends where j + k months end if and only if the day fits the month between or that month is as long as the last |
| `AuthLockout.User.HandleFailedLogin` | backend/src/modules/auth/auth.service.ts:420-431 | one more failure, and a lock for 30 minutes from the fifth on |
| `AuthLockout.User.Login` | backend/src/modules/auth/auth.service.ts:152-181 | outcome and new counter and lock: refused when inactive or locked, a lock that has run out forgotten first |
| `AuthLockout.User.ResetPassword` | backend/src/modules/auth/auth.service.ts:362-363 | counter and lock are cleared |
| `AuthLockout.StepKeepsInv` | backend/src/modules/auth/auth.service.ts:157-181 | every step keeps: no lock means fewer than five failures, a lock ends 30 minutes after the last one, failures five apart are a lockout apart |
| `AuthLockout.RunKeepsInv` | backend/src/modules/auth/auth.service.ts:157-181 | that invariant in every run of attempts, resets and waiting |
| `AuthLockout.OutcomeIff` | backend/src/modules/auth/auth.service.ts:152-181 | a login succeeds if and only if the account is active and not locked and the password is right |
| `AuthLockout.ClosedAccountIgnores` | backend/src/modules/auth/auth.service.ts:152-161 | an attempt on an inactive or locked account is refused and changes nothing, with either password |
| `AuthLockout.LockStays` | backend/src/modules/auth/auth.service.ts:157-161 | in every run a lock stays as it is until its end, unless a reset comes between |
| `AuthLockout.FifthFailureShutsOut` | backend/src/modules/auth/auth.service.ts:420-431 | in every run no attempt succeeds for 30 minutes after a fifth failure, unless a reset comes between |
| `AuthLockout.EndedLockOpens` | backend/src/modules/auth/auth.service.ts:162-165 | after its end the right password opens the account, and a wrong one counts as the first |
| `AuthLockout.WindowIsConsecutive` | backend/src/modules/auth/auth.service.ts:157-181 | the failures of a window are consecutive in the log |
| `AuthLockout.FailuresAreBounded` | backend/src/modules/auth/auth.service.ts:34-35 | between successes and resets any window of w ms holds at most 5 * (w / 30 min + 1) compared wrong passwords |
| `AuthLockout.BoundIsAttained` | backend/src/modules/auth/auth.service.ts:34-35 | for every number of lockouts some run reaches the bound exactly |
| `JobQueue.SortSorts` | backend/src/common/services/job-queue.service.ts:46-46 | the stable sort gives descending priorities and keeps the order of equal ones |
| `JobQueue.SortKeepsJobs` | backend/src/common/services/job-queue.service.ts:46-46 | the sort keeps exactly the jobs |
| `JobQueue.JobQueueService.Enqueue` | backend/src/common/services/job-queue.service.ts:21-32 | the job goes last; a wakeup is scheduled unless a job is running |
| `JobQueue.JobQueueService.BeginNext` | backend/src/common/services/job-queue.service.ts:41-51 | nothing while running or empty; otherwise the head of the sorted queue leaves it |
| `JobQueue.JobQueueService.FinishJob` | backend/src/common/services/job-queue.service.ts:60-67 | not running any more, and a wakeup if jobs wait |
| `JobQueue.JobQueueService.DrainQueue` | backend/src/common/services/job-queue.service.ts:34-39 | begins the next job exactly when one waits and none runs |
| `JobQueue.StepKeepsInv` | backend/src/common/services/job-queue.service.ts:21-68 | every event keeps: one job at a time, no lost wakeup, every job in one place, equal priorities started in order |
| `JobQueue.RunKeepsInv` | backend/src/common/services/job-queue.service.ts:21-68 | that invariant in every run of calls, wakeups, cron ticks and job ends |
| `JobQueue.TakenIsFirstOfHighest` | backend/src/common/services/job-queue.service.ts:45-47 | the job taken next in any run is the earliest enqueued of the highest priority |
| `JobQueue.TakenHasHighestPriority` | backend/src/common/services/job-queue.service.ts:46-46 | in terms of the priorities themselves, a missing one counting as zero |
| `JobQueue.WakeupsChangeIff` | backend/src/common/services/job-queue.service.ts:25-67 | exactly which events schedule a wakeup or use one up |
| `JobQueue.HandledAtMostOnce` | backend/src/common/services/job-queue.service.ts:53-59 | no job is handed to the handler twice |
| `JobQueue.QuietMeansAllHandled` | backend/src/common/services/job-queue.service.ts:25-30 | when no job runs and no wakeup is pending every enqueued job has completed or failed |
| `JobQueue.WakeupsDrainTheQueue` | backend/src/common/services/job-queue.service.ts:60-67 | from every state of the invariant the event loop alone empties the queue in a given number of turns, whichever handlers fail |
| `JobQueue.EveryRunDrains` | backend/src/common/services/job-queue.service.ts:60-67 | so after every run that many turns complete or fail every job enqueued in it |
| `ApiKeys.FindHash` | backend/src/modules/developer/developer.service.ts:212-214 | the first key with the hash, or none when no key has it |
| `ApiKeys.DeveloperService.CreateKey` | backend/src/modules/developer/developer.service.ts:41-67 | a new ACTIVE key without predecessor, expiring as asked or in 90 days |
| `ApiKeys.DeveloperService.GetKey` | backend/src/modules/developer/developer.service.ts:102-112 | the user's own key, or not found |
| `ApiKeys.DeveloperService.UpdateKey` | backend/src/modules/developer/developer.service.ts:114-130 | name and expiry of the user's own key, an empty name ignored; status and links stay |
| `ApiKeys.DeveloperService.RotateKey` | backend/src/modules/developer/developer.service.ts:132-187 | refused unless found and ACTIVE; otherwise a successor with a link, one history record, and the old key EXPIRED |
| `ApiKeys.DeveloperService.RevokeKey` | backend/src/modules/developer/developer.service.ts:202-206 | the user's own key becomes REVOKED |
| `ApiKeys.DeveloperService.ValidateKey` | backend/src/modules/developer/developer.service.ts:208-231 | the accepted key, if any, and the expired one marked EXPIRED |
| `ApiKeys.DeveloperService.DeactivateExpiredKeys` | backend/src/modules/developer/developer.service.ts:261-271 | exactly the active keys past their expiry become EXPIRED, and their number is returned |
| `ApiKeys.ActiveHasNoSuccessor` | backend/src/modules/developer/developer.service.ts:139-141 | an ACTIVE key has not been rotated |
| `ApiKeys.RotateKeepsInv` | backend/src/modules/developer/developer.service.ts:149-179 | a rotation keeps the chains, extending one at its tail |
| `ApiKeys.StepKeepsInv` | backend/src/modules/developer/developer.service.ts:41-271 | every operation keeps hashes unique, links backward within one user to inactive keys, one successor each, and the history equal to the links |
| `ApiKeys.EmptyTablesMeetInv` | backend/src/modules/developer/developer.service.ts:41-67 | the empty tables meet that invariant |
| `ApiKeys.RunKeepsInv` | backend/src/modules/developer/developer.service.ts:41-271 | that invariant in every run |
| `ApiKeys.RunKeepsRows` | backend/src/modules/developer/developer.service.ts:132-271 | in every run no key returns to ACTIVE, a REVOKED key stays so, and owner, hash and link never change |
| `ApiKeys.ChainIsLinear` | backend/src/modules/developer/developer.service.ts:149-160 | every chain goes up in creation order within one user and only its last key may be ACTIVE |
| `ApiKeys.ChainsAreDisjoint` | backend/src/modules/developer/developer.service.ts:149-160 | the chains of different tails share no key |
| `ApiKeys.EveryKeyHasATail` | backend/src/modules/developer/developer.service.ts:149-160 | every key lies in the chain of some tail |
| `ApiKeys.OneRecordPerLink` | backend/src/modules/developer/developer.service.ts:164-174 | the history holds exactly one record for each link and none else |
| `ApiKeys.AcceptsOnlyTails` | backend/src/modules/developer/developer.service.ts:208-231 | `validateKey` accepts if and only if the key has the prefix, is ACTIVE and not expired, and then it is its chain's tail |
| `ApiKeys.RotatedKeyIsRefused` | backend/src/modules/developer/developer.service.ts:176-179 | after a successful rotation the old key is refused at once and in every later state of every run |
| `ApiKeys.RevokedKeyIsRefused` | backend/src/modules/developer/developer.service.ts:202-206 | a revoked key is refused at once and in every later state of every run |
| `ApiKeys.CreatedKeyWorks` | backend/src/modules/developer/developer.service.ts:41-67 | a new key is accepted up to its expiry, as asked or in 90 days, and not after |
| `ApiKeys.SuccessorWorks` | backend/src/modules/developer/developer.service.ts:149-160 | so is the successor of a rotated key, which keeps name and owner |
| `ApiKeys.OwnKeysOnly` | backend/src/modules/developer/developer.service.ts:102-141 | rotation succeeds exactly on the own ACTIVE key, update and revocation exactly on the own key |
| `ApiKeys.UpdateMovesExpiry` | backend/src/modules/developer/developer.service.ts:114-130 | after an update the key is accepted up to the new expiry; nothing but name and expiry of that key changes |
| `ApiKeys.ValidationMarksExpired` | backend/src/modules/developer/developer.service.ts:219-226 | validation changes a key exactly when it finds it ACTIVE past its expiry, and then to EXPIRED |
| `ApiKeys.SweepMarksExactly` | backend/src/modules/developer/developer.service.ts:261-271 | the sweep marks exactly the ACTIVE keys past their expiry and leaves none to mark |
| `ApiKeys.SweepChangesNoAnswer` | backend/src/modules/developer/developer.service.ts:261-271 | the expiry sweep changes no answer of `validateKey` then or later |

## Left out

- Idempotency: `store` and `retrieve` on a key that `process` also uses, results that carry an `__idem` field themselves, and the empty-key error. The key prefixes are implied by the separate stores.
- Idempotency.IdempotencyService: the loop of `process` is not a method, since other callers act at each of its awaits; it is the program counter of `Next`. The same holds for the retry loop of `withLock` in `Lock` and for `getOrSet` in `SingleFlight`.
- Lock: backoff delays and the periods between health checks are arbitrary amounts of time; the error objects are reduced to their kinds.
- JSON: `undefined`, functions and other values that JSON text cannot carry; a number is identified with its printed token. `JSON.parse` is abstract.
- Cryptography: AES-GCM, SHA-256, bcrypt and random bytes are functions with the laws named above; reading the key from the environment is not modelled.
- KycMigration: two scripts at once (`FOR UPDATE SKIP LOCKED`), other writers of the rows, the `updated_at` column, the command line and the logging.
- KycMigration: the row loop of `rollbackMigration` cannot fail in the model, so an aborted rollback is a step that changes nothing.
- KycEncryption.ParseBatchSize: how `Number` reads the text of the argument; its result, if an integer, is an input.
- Glob: strings are sequences of Unicode scalar values where the source's expression works on UTF-16 units, so strings with unpaired surrogates are not covered.
- Glob: regular-expression syntax that the translation cannot produce; flags and captures.
- Cache: `invalidateAll` and the property helpers (calls of `invalidate`), the hit rates, and the unit of the Upstash store; the names that a store's `keys` returns are an input.
- Cache.CacheService.SetValue: a TTL of zero, which the stores read differently, is taken as a lifetime of zero.
- WebSocketSessions: `getSessionByConnectionId` (always null), metadata, logging, and interleavings inside one method.
- WebSocketSessions.WebSocketSessionService.DeleteAllUserSessions: the deletions started together are modelled one after another.
- Disputes: evidence, comments, `raiseDisputeOnChain`, `syncDisputeFromChain`, listings and the fields of a dispute that no tally or status depends on. `parseInt` of an agreement id is taken to identify the agreement.
- Disputes: interleavings inside one method; the read-modify-write sequences run as one step each.
- Calendar: daylight saving shifts and the range limits of Date; local time has a fixed offset.
- PaymentSchedule: webhook statuses, escrow references and metadata encryption, which are table lookups or calls into ciphers.
- LeaseRenewal: the other agreement operations, and the 1 to 120 bound on the months, which is checked before `renew` and not needed by the proofs.
- AuthLockout: tokens, multi-factor login, the login counter and the validity of reset tokens; a reset and a wallet login clear the same fields and are one event.
- JobQueue: what a handler does (it only logs) beyond ending well or badly; priorities that are not integers.
- ApiKeys: `lastUsedAt`, key prefixes for display, listings and expiry warnings; comparison of dates stored as text is comparison of instants, and a rotation that fails between its three writes is not modelled.
- Controllers, guards, decorators, mail, payments gateways, the Stellar clients, analytics and the frontend: plumbing, or easy members only.
