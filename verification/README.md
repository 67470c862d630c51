# Shardman control plane: a verified model

Shardman routes shard keys to PostgreSQL shards. One metadata table holds the shards, their lifecycle state and their
bucket; a resolver, three supervisors, one agent per shard and caching clients all act on it. This project models that
control plane in Dafny and proves what it is meant to guarantee. `dafny verify dfyconfig.toml` checks everything.

How the model is laid out:

- **Ids and time** (`Common`, `Decimal`, `Calendar`, `Bucket`, `BucketNames`, `TimeBuckets`, `Routing`): from a key to a
  bucket id, Go's truncating division and int64 wrap-around written out, a civil calendar built from leap years and month
  lengths, the writable window and eviction.
- **The store** (`Fsm`, `Table`, `Transactions`): the `shards` table is a sequence of rows in id order, the
  `cluster_config` row an option. WHERE clauses and SET lists are values; every SQL transaction is a function `Exec` from
  tables to tables and an outcome, including its error returns and the rollback on the partial unique index.
- **What holds of every step and every run** (`Lifecycle`, `Runs`, `OneWriter`, `WriterRaces`, `Journeys`, `PoolSizing`),
  and **what the operations do in plain columns** (`Effects`, `Ticks`, `Answers`, `AgentTicks`): statements that name no
  clause, assignment or helper the operations are written with.
- **Code that updates the store in place** (`MetadataStore.Store` in `Store.dfy`, `Server`): a class with the tables, the
  config cache and the heartbeat timeout; resolver and supervisor loops that drive it. Every method is proved against the
  functions above, so the run theorems apply to it.
- **The client** (`Topology`, `LocalResolve`, `EndToEnd`) and **the concurrent parts** (`RetentionRace`, `ResolveRace`,
  `Agent`, `AgentRaces`, `Watch`), which are step machines so that any interleaving is covered.

The main results:

1. *One writer per bucket.* With the unique index, a call keeps at most one active-or-draining data shard per bucket
   **iff** it is not a raw promotion or a manual activation into a bucket whose shard is still draining
   (`OneWriterStep`); without the index, **iff** it is none into a bucket with any writer (`OneWriterStepWithoutIndex`).
   Routine runs keep it without the index, and are the same runs with it (`RoutineRunsKeepOneWriter`,
   `RoutineRunsNeedNoIndex`). The excluded calls really break it: `AutoPromotionRace` is the check-then-act race of
   auto-promotion, which the unique index does not stop.
2. *`topology_version` is a sound cache key* after bootstrap (`VersionIsCacheKey`); before bootstrap it is not.
3. *Bucket assignment is sticky*: between two assignments a shard was sealed, then cleaning, then recycled.
4. *A local resolve equals the server's answer* and the server leaves the store unchanged **iff** the bucket's active is
   fresh (`LocalWriteAgrees`, `LocalReadAgrees`); a client fed by a settled Watch stream resolves as the server does
   under the same condition (`SettledClientAgrees`).
5. *A lossy Watch stream converges*, its versions never decrease, and its shard lists are never older than announced.
6. *A write gets a shard*, under one writer per bucket, **iff** the bucket has a fresh active, or nothing in it drains
   and a standby is left (`EnsureActiveExactly`, for a call that runs alone). With anything in between its statements, an answer is still a
   shard that served the bucket during the call, and a failure is still honest (`ResolveRace`).
7. *A step keeps recycling safe* **iff** it does not end the cleaning of a shard in use behind its agent's back and does
   not write to a shard that is in the pool or already truncated (`SafeStep`); `AgentRaces` shows the harm such steps do,
   from the empty cluster on. Nothing in the code stops a client with a stale cache from such a write. *Retention never
   touches a bucket a key can still be routed to*; *MinShards is enough*, and one less is not.
8. *Each operation in plain columns*: what every transaction does to every row (`Effects`), which heartbeats, limits,
   deadlines and ages the supervisors act on and that no bucket loses its writer while a standby is left (`Ticks`), and
   what a write or read of any key is answered, error reasons included (`Answers`).

Where the documentation and the code differ, the model follows the code: the seconds/milliseconds threshold is
32 536 800 000 (the documentation says 32503680000), and the store guarantees at most one error shard, not exactly one.
Two results about the code are worth knowing. A numeric key near the int64 minimum is sent to a wrong bucket when
`n - width + 1` underflows; `NumericIndexIsFloor` gives the exact condition. `Index(IDFromIndex(i))` for months is `i`
exactly for `i >= -1`.

Times are integers in one unit. Queries without ORDER BY are modelled as "first in id order"; where the choice could
matter, the matching row is proved unique (`ActiveIsUnique`, `ErrorShardAlwaysWritable`).

## Model

| member | source | states |
|---|---|---|
| `Decimal.DigitWidth` | internal/bucket/bucket.go:218-228 | the division loop returns the number of decimal digits, and 1 for every number below 10 |
| `Decimal.ParseIntCases` | internal/bucket/bucket.go:297-310 | digits after an optional sign, leading zeros included, read as their number within int64 and are refused outside; Atoi with its error ignored gives the nearest bound |
| `Decimal.ParseIntRefuses` | internal/bucket/bucket.go:297-310 | an empty text, a lone sign and a text with any other character are no number |
| `BucketNames.NumericIndexIsFloor` | internal/bucket/bucket.go:115-124 | the truncating formula equals floor(n/width) if and only if its int64 subtraction does not underflow |
| `BucketNames.NumericUnderflowExample` | internal/bucket/bucket.go:120-123 | the smallest int64 with width 2 gets index 4611686018427387903 instead of a negative one |
| `BucketNames.SpellingReads` | internal/bucket/bucket.go:297-310 | int64, int, whole float64 and decimal text of a number all read as that number |
| `BucketNames.NumericIdNamesInterval` | internal/bucket/bucket.go:115-124 | a key of any type that reads as n gets the name of q if and only if n lies in the q-th interval of the width; if the subtraction underflows it does not get that name |
| `BucketNames.NumericSameBucket` | internal/bucket/bucket.go:115-124 | two keys of any type that do not underflow share a bucket id string if and only if one width interval holds both |
| `BucketNames.HashIdOrder` | internal/bucket/bucket.go:125-132 | hash ids have length 1 + digits of bucket_count - 1, differ for different indices, and sort as strings in index order |
| `BucketNames.HashIdIsHash` | internal/bucket/bucket.go:125-132 | a key's id is 'h' and, padded to the width of the largest index, the hash of its text modulo bucket_count, where the text is the lower-cased string, the decimal number or the JSON number as written |
| `BucketNames.HashSameBucket` | internal/bucket/bucket.go:125-132 | two keys share a hash bucket if and only if their texts hash alike modulo bucket_count |
| `BucketNames.HashSpellingsAgree` | internal/bucket/bucket.go:241-259 | int64, int, whole float64 and text of one number share a hash bucket; an unsupported type has none |
| `BucketNames.NumericRefuses` | internal/bucket/bucket.go:297-310 | JSON numbers, unsupported types and texts that are no number have no numeric bucket |
| `TimeBuckets.IndexOfTimeID` | internal/bucket/bucket.go:149-191 | the index read from an instant's id is floor(unix/3600), floor(unix/86400) or year*12+month-1, also before 1970; Index errs exactly outside years 0-9999 (months: below year 0) |
| `TimeBuckets.PeriodMonotone` | internal/bucket/bucket.go:162-191 | later instants never get smaller indices, in every unit |
| `TimeBuckets.PeriodNextSecond` | internal/bucket/bucket.go:162-191 | the index goes up by one exactly after the last second of an hour, a day, or a month's last day, and is unchanged between |
| `TimeBuckets.IndexOfIDFromIndex` | internal/bucket/bucket.go:193-211 | Index undoes IDFromIndex exactly while int64 and the year field hold the index; for months exactly from -1 on |
| `TimeBuckets.TimeIDIsCanonical` | internal/bucket/bucket.go:149-211 | an instant's id is the id its index prints to: one name per period |
| `TimeBuckets.SecondsAndMillisecondsAgree` | internal/bucket/bucket.go:261-295 | a number of seconds and the same instant in milliseconds, each as int64, int, float64 or text, get the same bucket in every unit, whenever the threshold lies between the two numbers |
| `TimeBuckets.NumberReadsAsTime` | internal/bucket/bucket.go:261-295 | a number reads as seconds up to 32536800000 and as milliseconds beyond, negative numbers included, however it is written |
| `TimeBuckets.TextReadsAsTime` | internal/bucket/bucket.go:261-283 | a text is tried as RFC 3339 first, then as a date, then as a month, which read as their first second |
| `TimeBuckets.NoTimeKey` | internal/bucket/bucket.go:261-295 | JSON numbers, unsupported types and all other texts are no time |
| `TimeBuckets.IdIsItsOwnKey` | internal/bucket/bucket.go:107-160 | day and month ids, used as keys, are routed to the bucket they name |
| `TimeBuckets.HourTextReads` | internal/bucket/bucket.go:167-173 | an hour id is read with one or two hour digits below 24, and with nothing else |
| `Calendar.YearStartClosedForm` | internal/bucket/bucket.go:167-179 | the calendar's year starts agree with the closed form 365*y + y/4 - y/100 + y/400 |
| `Calendar.CivilDateInverse` | internal/bucket/bucket.go:197-203 | the date of a valid date's day number is that date; with the contract of CivilDate, dates and day numbers correspond one to one |
| `Calendar.MonthStarts` | internal/bucket/bucket.go:197-203 | the days before each month are those of the civil calendar, one more after February in leap years |
| `Routing.WritesStayInWindow` | internal/bucket/routing.go:40-71 | a time key is routed to bucket b if and only if b is its own bucket, the clock has an index and b's index is in (current - depth, current + max_future] |
| `Routing.BucketsOutsideRetention` | internal/bucket/routing.go:75-103 | returns, in order, exactly the known buckets older than the window; errs exactly when the current bucket has no index |
| `Routing.EvictionGrows` | internal/bucket/routing.go:75-103 | an evicted bucket stays evicted as the clock advances |
| `Routing.EvictedIsUnroutable` | internal/bucket/routing.go:31-103 | no key is routed to an evicted bucket at the time of eviction or later |
| `Routing.OldInstantIsEvicted` | internal/bucket/routing.go:75-103 | the bucket of an instant is evicted if and only if its period is at least retention_depth behind the present one |
| `Routing.RetainedOrEvicted` | internal/bucket/routing.go:31-103 | a bucket of the past or present takes writes if and only if it is not evicted |
| `Routing.WritableWindow` | internal/bucket/routing.go:58-71 | while every index of the window has a name and an int64 key, the writable ids are exactly depth + max_future different ones |
| `Routing.BootstrapAdmitsPresent` | internal/bucket/routing.go:115-142 | the bootstrap check accepts a time cluster if and only if the mode allows one, max_future is not negative and the present bucket takes writes |
| `Routing.BootstrapOfOtherAxes` | internal/bucket/routing.go:115-142 | a time cluster needs both parameters; hash and numeric clusters are accepted exactly under their own or the default mode |
| `PoolSizing.MinShardsSuffice` | internal/bucket/bucket.go:213-216 | with MinShards - 1 data shards, at most one per bucket, unassigned ones standby and at most one bucket outside the window held, promotion for any writable bucket without a shard succeeds |
| `PoolSizing.MinShardsIsTight` | internal/bucket/bucket.go:213-216 | with one data shard less there is, for every window and every bucket in it, a table as above where that bucket finds no standby |
| `Lifecycle.StepRefines` | internal/store/store.go:271-866 | every transaction keeps the table invariant, moves every row along an edge CanTransition allows, raises the row version on each state or bucket change and touches the drain clock only at the start of a drain and at recycling, although only PatchState consults the table |
| `Effects.StepFollowsEdges` | internal/fsm/fsm.go:22-40 | under every call a state moves along one of the six lifecycle edges, written out, or stays |
| `Effects.PromotionColumns` | internal/store/store.go:442-474 | column by column: exactly the lowest-id pool standby becomes the active of the bucket, seen now; NotFound without a standby, a unique violation beside an active |
| `Effects.RotationColumns` | internal/store/store.go:476-532 | column by column: the active is sealed, the lowest-id standby, if any, promoted, every other row unchanged, the version up by one; NotFound otherwise |
| `Effects.DrainCompletionColumns` | internal/store/store.go:809-866 | column by column: the draining shard is sealed with its flag down, the lowest-id standby, if any, promoted, every other row unchanged |
| `Effects.DrainIsHandedOver` | internal/store/store.go:842-858 | a bucket whose drain ends has an active at once if and only if a standby was left |
| `Effects.RotationIsHandedOver` | internal/store/store.go:506-526 | a bucket whose active is rotated out has a new active at once if and only if a standby was left |
| `Effects.DrainStartColumns` | internal/store/store.go:755-776 | column by column: the active drains from now with the flag down, or NotFound |
| `Effects.DrainReadyColumns` | internal/store/store.go:778-789 | column by column: the flag of the draining shard goes up, the topology version stays, or NotFound |
| `Effects.StatsColumns` | internal/store/store.go:539-550 | column by column: bytes and heartbeat of the reporting shard, no version moves, or NotFound |
| `Effects.CleaningColumns` | internal/store/store.go:587-609 | column by column: the sealed shards of the bucket start cleaning; the version moves only if there is one |
| `Effects.RecyclingColumns` | internal/store/store.go:619-641 | column by column: a cleaning shard loses bucket, bytes, drain clock and flag; any other report is ignored |
| `Effects.PatchColumns` | internal/store/store.go:552-585 | the state column of one row moves along a lifecycle edge; refused for a missing edge or a second active |
| `Effects.PatchMissing` | internal/store/store.go:552-585 | a patch of an unknown id is NotFound and changes nothing |
| `Effects.AutoPromotionCases` | internal/store/store.go:697-720 | nothing beside an active seen in time, NotFound beside any other writer, else a promotion |
| `Effects.BootstrapColumns` | internal/store/store.go:128-162 | the config row is written once, with version 1, for a spec ParseSpec accepts; no shard row changes |
| `Runs.AlwaysInv` | internal/store/store.go:128-866 | in every reachable state ids ascend, uuids differ, states are lifecycle states, the unique indexes hold and the config is valid |
| `Runs.RowIdentity` | internal/store/store.go:271-866 | a row keeps id, uuid, role and position for the rest of the run; its version never drops |
| `Runs.RowVersionIsKey` | internal/store/store.go:442-641 | equal row versions in a run mean equal state and bucket |
| `Runs.ErrorShardAlwaysWritable` | internal/store/store.go:271-295 | at most one error shard in every reachable state, always active and without a bucket |
| `Runs.VersionStep` | internal/store/store.go:745-753 | the version never drops, the config is fixed after bootstrap, and a step that changes routes raises the version if and only if the cluster is bootstrapped |
| `Runs.VersionIsCacheKey` | internal/store/store.go:442-866 | after bootstrap, two states of a run with equal topology_version agree on id, uuid, role, state, bucket, dsn and url of every shard |
| `Runs.VersionsAscend` | internal/store/store.go:745-753 | topology_version never drops during a run |
| `Runs.ConfigFixed` | internal/store/store.go:128-162 | bootstrap parameters never change |
| `Runs.RegistrationBeforeBootstrapIsSilent` | internal/store/store.go:312-314 | before bootstrap a registration changes the routes without changing the version |
| `Runs.BecomesStandby` | internal/store/store.go:552-641 | a used shard becomes standby only by FinishCleaning of that shard, or by a manual patch, which keeps its bucket |
| `Runs.BucketLostOnlyByRecycling` | internal/store/store.go:442-866 | an assigned row's bucket changes only by FinishCleaning of that shard while it is cleaning |
| `Runs.SealedBeforeCleaning` | internal/store/store.go:587-609 | a shard in cleaning was sealed at some earlier point of the run |
| `Runs.BucketIsSticky` | internal/store/store.go:587-641 | a shard stays on its bucket until FinishCleaning of that shard runs while it is cleaning |
| `Runs.ReassignmentPath` | internal/store/store.go:442-641 | between two assignments of one shard it was sealed, later cleaning, and recycled by FinishCleaning, manual patches included |
| `OneWriter.OneWriterStep` | internal/store/store.go:442-866 | with the unique index in place, a call keeps at most one active or draining data shard per bucket if and only if it is not a promotion or manual activation into a draining bucket |
| `OneWriter.OneWriterAlways` | internal/store/store.go:442-866 | one writer per bucket in every state of a run that avoids those two guards |
| `OneWriter.RoutineRunsKeepOneWriter` | internal/store/store.go:697-720 | on a store without the unique index, runs that promote only through auto-promotion, rotation and drain completion, and patch no shard active by hand, keep the table invariant and one writer per bucket |
| `OneWriter.RoutineRunsNeedNoIndex` | internal/store/migrations/001_init.sql:31-37 | routine runs are the same with and without the unique index, which never rejects one of their calls |
| `OneWriter.OneWriterStepWithoutIndex` | internal/store/store.go:442-866 | without the index, a call keeps one writer per bucket if and only if it is not a promotion or manual activation into a bucket that has any writer |
| `OneWriter.PatchOutcome` | internal/store/store.go:552-585 | a manual patch fails exactly with NotFound for an unknown id, InvalidArgument for a missing edge, or a unique violation for a second active in the bucket |
| `WriterRaces.AutoPromotionRace` | internal/store/store.go:697-720 | auto-promotion run as separate transactions can leave a draining and an active shard in one bucket, past the unique index |
| `WriterRaces.PatchedStandbyKeepsBucket` | internal/store/store.go:572-574 | a manual patch from cleaning to standby leaves the bucket assigned |
| `WriterRaces.ManualActivationRace` | internal/store/store.go:552-585 | patching such a shard active while its successor drains gives the bucket two writers |
| `WriterRaces.TwoRegistered` | internal/store/store.go:271-319 | the table these races start from is what two registrations leave behind |
| `WriterRaces.SuccessorDrains` | internal/store/store.go:755-776 | the state the manual race starts from follows from the previous one by a drain |
| `MetadataStore.Store.constructor` | internal/store/store.go:69-94 | starts with empty tables, no cached config and a positive heartbeat timeout, 60 seconds by default |
| `MetadataStore.Store.Bootstrap` | internal/store/store.go:128-162 | writes the config once with version 1, rejects a second bootstrap and an invalid spec, fills the cache |
| `MetadataStore.Store.GetConfig` | internal/store/store.go:220-234 | returns the stored config whether or not it was cached, and caches it |
| `MetadataStore.Store.CommitRows` | internal/store/store.go:750-753 | new rows and version bump together, or nothing if the unique index rejects them |
| `MetadataStore.Store.RegisterShard` | internal/store/store.go:271-319 | new tables and error are those of the registration transaction, and on success the row with this uuid and endpoint is returned |
| `MetadataStore.Store.PromoteStandbyToActive` | internal/store/store.go:442-474 | promotes the lowest-id pool standby into the bucket, or NotFound |
| `MetadataStore.Store.SealRotate` | internal/store/store.go:476-532 | seals the bucket's active and promotes a standby if there is one, in one transaction |
| `MetadataStore.Store.CompleteDrainSeal` | internal/store/store.go:809-866 | seals the bucket's draining shard and promotes a standby if there is one |
| `MetadataStore.Store.BeginDrain` | internal/store/store.go:755-776 | the bucket's active starts draining with the flag cleared, or NotFound |
| `MetadataStore.Store.MarkDrainReady` | internal/store/store.go:778-789 | sets the ready flag of a draining shard without a topology bump, or NotFound |
| `MetadataStore.Store.UpdateStats` | internal/store/store.go:539-550 | records bytes and heartbeat without a topology bump, or NotFound |
| `MetadataStore.Store.PatchState` | internal/store/store.go:552-585 | applies a lifecycle edge, else InvalidArgument, NotFound or a unique violation |
| `MetadataStore.Store.MarkBucketCleaning` | internal/store/store.go:587-609 | the bucket's sealed shards start cleaning, their number is returned, and the version is bumped only if there is one |
| `MetadataStore.Store.FinishCleaning` | internal/store/store.go:619-641 | a cleaning shard returns blank to the pool; otherwise nothing happens |
| `MetadataStore.Store.AutoPromoteIfNoActive` | internal/store/store.go:697-720 | as one step: nothing for a fresh active, NotFound for any other writer, else a promotion |
| `MetadataStore.Store.Query` | internal/store/store.go:375-440 | the row loop returns exactly the matching rows in id order |
| `MetadataStore.Store.ShardsNeedingSeal` | internal/store/store.go:664-687 | exactly the active data shards at or over their own or the default limit |
| `MetadataStore.Store.DistinctBucketIDs` | internal/store/store.go:643-662 | every bucket held by a data shard, each once |
| `Resolve.ActiveIsUnique` | internal/store/store.go:348-360 | the active shard of a bucket is unique in every well-formed table |
| `Resolve.RotationEffect` | internal/resolve/resolve.go:204-225 | under one writer per bucket, failover leaves a fresh active if the pool was not empty, and no writer otherwise |
| `Resolve.PromotionEffect` | internal/store/store.go:697-720 | in a bucket without writers auto-promotion succeeds if and only if the pool is not empty, with a fresh active shard; otherwise NotFound and no change |
| `Resolve.EnsureActiveExactly` | internal/resolve/resolve.go:171-225 | under one writer per bucket, a shard is returned if and only if the bucket has a fresh active, or nothing in it drains and a standby is left; it is active, fresh and in the bucket; a failure is NotFound |
| `Answers.ActiveAnswer` | internal/resolve/resolve.go:171-225 | the same in columns: the shard returned is active in the bucket and was heard of at the cutoff or later, so a silent shard is never returned |
| `Answers.ActiveTables` | internal/resolve/resolve.go:171-225 | the tables change by nothing, by a rotation of the silent active, or by a promotion, and by which one is decided |
| `Answers.RouteExactly` | internal/resolve/resolve.go:43-62 | every outcome of routing a time key under the cluster's own retention_depth and max_future: its bucket, each of the four error reasons, or none |
| `Answers.RouteByValue` | internal/resolve/resolve.go:43-62 | numeric and hash keys go to their bucket whatever the clock, unreadable ones to the error bucket |
| `Answers.RouteOfInstant` | internal/resolve/resolve.go:43-62 | a key that reads as an instant is routed to the bucket of its period if and only if that period is less than retention_depth behind and at most max_future ahead |
| `Answers.WriteRefused` | internal/resolve/resolve.go:43-65 | before bootstrap and for a key without a route a write is refused and nothing changes |
| `Answers.WriteToErrorShard` | internal/resolve/resolve.go:67-82 | an error route answers with the error shard, its address and the reason, or NotFound |
| `Answers.WriteToBucket` | internal/resolve/resolve.go:84-96 | a bucket route answers with a live shard of that bucket and its address exactly when one can be had, else NotFound |
| `Answers.ReadRefused` | internal/resolve/resolve.go:98-119 | before bootstrap and for a key without a route a read is refused and nothing changes |
| `Answers.ReadOfErrorRoute` | internal/resolve/resolve.go:121-142 | an evicted key answers with no shard, any other error route with the error shard and the reason |
| `Answers.ReadOfBucket` | internal/resolve/resolve.go:144-169 | a bucket read lists exactly the sealed and the live shards by ascending id; only if there is none, a shard is made ready |
| `ResolveRace.AnswerIsEarned` | internal/resolve/resolve.go:171-225 | with any store calls and clock advances between the statements, a returned shard was a fresh active of the bucket when read, or the call itself promoted it into the bucket and it still has the bucket unless its cleaning ended since |
| `ResolveRace.FailureIsHonest` | internal/resolve/resolve.go:171-225 | under the same interleavings a failed call found no fresh active when it began; it fails with NotFound, or with a unique violation because the bucket had an active again when it promoted |
| `ResolveRace.AloneIsEnsureActive` | internal/resolve/resolve.go:171-225 | with nothing in between, the statements compute the atomic ensureActive, tables and answer |
| `ResolveRace.AloneIsATrace` | internal/resolve/resolve.go:171-225 | an uninterrupted call is a trace of the machine and ends with that answer |
| `ResolveRace.AnyoneMayIntervene` | internal/resolve/resolve.go:171-225 | between any two statements any call may run and the clock may advance |
| `Server.Resolver.FailoverStaleActive` | internal/resolve/resolve.go:204-225 | rotates a stale active; losing the race is not an error |
| `Server.Resolver.EnsureActive` | internal/resolve/resolve.go:171-202 | the statements compute the specified answer and tables, with the exact success condition under one writer per bucket |
| `Server.Resolver.ResolveWrite` | internal/resolve/resolve.go:43-96 | classifies the key, then serves the error shard or an active shard, with the specified tables and error |
| `Server.Resolver.ResolveRead` | internal/resolve/resolve.go:98-169 | lists the readable shards of the bucket, promoting only if there are none |
| `Server.RotateBuckets` | internal/health/health.go:50-69 | the loop equals the fold of rotations over the listed shards, each on the tables as they are by then |
| `Server.CompleteDrains` | internal/seal/seal.go:57-78 | the loop equals the fold of drain completions over the listed shards |
| `Server.StartDrains` | internal/seal/seal.go:86-95 | the loop equals the fold of drain starts over the listed shards |
| `Server.CleanBuckets` | internal/retention/retention.go:63-82 | the loop equals the fold of check-then-mark over the listed buckets |
| `Server.HealthTick` | internal/health/health.go:43-70 | the loop seals exactly the actives not heard of since now minus the heartbeat timeout, and no bucket loses its writer while a standby is left |
| `Server.SealTick` | internal/seal/seal.go:45-98 | the two loops seal exactly the drains that are due and start exactly the drains of shards at their limit, the cluster's shard_max_bytes by default, and no bucket loses its writer while a standby is left |
| `Server.RetentionTick` | internal/retention/retention.go:43-84 | exactly the sealed shards without a writer beside them whose bucket is at least retention_depth behind the clock start cleaning |
| `Ticks.HealthTickColumns` | internal/health/health.go:43-70 | row by row, under one writer per bucket: an active never heard of or last heard of before the cutoff is sealed, one heard of since is untouched, pool rows stay or are promoted, no other row changes |
| `Ticks.HealthTickHandsOver` | internal/health/health.go:43-70 | if a standby is left after the tick, every bucket that had a writer has one |
| `Ticks.SealTickColumns` | internal/seal/seal.go:45-98 | row by row, under one writer per bucket: a drain that is ready or at least the timeout old is sealed and any other goes on; an active at or over its own limit, or the default, starts draining and any other is untouched; pool rows stay, are promoted, or are promoted and set draining; no other row changes |
| `Ticks.SealTickHandsOver` | internal/seal/seal.go:45-98 | if a standby is left after the tick, every bucket that had a writer has one |
| `Ticks.CompletionLoopColumns` | internal/seal/seal.go:57-78 | the first loop alone: exactly the drains that are ready or at least the timeout old end sealed, pool rows stay or are promoted, no other row changes |
| `Supervisors.DrainFold` | internal/seal/seal.go:86-95 | exactly the actives of the listed buckets drain |
| `Supervisors.CleanFold` | internal/retention/retention.go:63-82 | the loop's order does not matter: exactly the sealed shards of listed buckets without writers move |
| `Journeys.RegistrationRows` | internal/store/store.go:297-314 | the registered uuid gets its new endpoint and heartbeat and keeps every other column; other rows stay; a new uuid adds one row, given column by column; the version and the id sequence go up by one |
| `Journeys.RegistrationIsIdempotent` | internal/store/store.go:271-319 | accepted exactly for a data shard starting as standby or the first error shard, else InvalidArgument or Conflict and no change; registering again with the same endpoint changes no route |
| `Journeys.HeartbeatPreventsFailover` | internal/store/store.go:539-550 | a serving shard that reported within the timeout is untouched by a health tick |
| `Journeys.FullShardIsSealed` | internal/seal/seal.go:57-95 | a shard a tick found full is sealed for its bucket by the end of any later tick past the drain timeout, whatever guarded calls come in between, with or without its agent |
| `Journeys.DrainEndsSealed` | internal/store/store.go:755-866 | under every call a draining shard keeps bucket and drain clock, or is sealed for that bucket |
| `Journeys.YoungDrainContinues` | internal/seal/seal.go:57-68 | a drain with its flag down is left alone by any number of ticks less than the timeout after it started |
| `Journeys.ReadyFlagIsCurrent` | internal/store/store.go:755-789 | in runs where nobody ends cleaning by hand, a standby or active shard never carries a ready flag, so no drain starts out ready |
| `Journeys.RecycledIsBlank` | internal/store/store.go:626-630 | a recycled shard is a pool standby as blank as a new one, and no other row changes |
| `Journeys.ReadListsReadable` | internal/store/store.go:396-420 | a bucket read lists every sealed shard and every active one heard of at the cutoff or later, and no other |
| `Topology.BuildTopology` | internal/grpcapi/server.go:416-472 | the loop builds the message of the tables, NULL columns as empty strings |
| `Topology.ProtosFollowRoutes` | internal/grpcapi/server.go:452-472 | the shard messages depend on the routes only |
| `LocalResolve.Find` | pkg/client/local.go:57-73 | returns the first hit in list order |
| `LocalResolve.ShardsForBucketRead` | pkg/client/local.go:75-87 | returns every active or sealed shard of the bucket, in list order |
| `LocalResolve.TryResolveWriteLocal` | pkg/client/local.go:89-132 | computes the specified local answer or a miss |
| `LocalResolve.TryResolveReadLocal` | pkg/client/local.go:134-192 | computes the specified local answer or a miss |
| `LocalResolve.WireKeepsRoute` | internal/grpcapi/server.go:503-512 | strings and whole numbers within 2^53 are routed the same before and after the wire |
| `LocalResolve.WireCarries` | internal/grpcapi/server.go:503-512 | every number travels as a float64; text and whole numbers within 2^53 are carried exactly |
| `LocalResolve.StaleActiveIsNotServed` | internal/resolve/resolve.go:179-186 | with a stale active the server errs or changes the tables |
| `LocalResolve.ReadListAgrees` | pkg/client/local.go:75-87 | without stale actives, the client's filter over the messages lists the same shards in the same order as the server's query |
| `LocalResolve.LocalWriteAgrees` | pkg/client/local.go:89-132 | a local write hit equals the server's answer field by field, tables unchanged, if and only if the routed bucket's active is fresh |
| `LocalResolve.LocalReadAgrees` | pkg/client/local.go:134-192 | a local read hit equals the server's list in id order, tables unchanged, if and only if no active of the bucket is stale |
| `Answers.LocalWriteHits` | pkg/client/local.go:89-132 | a write is resolved locally if and only if the key has a route and the cached list holds the error shard or an active shard for it |
| `Answers.LocalReadHits` | pkg/client/local.go:134-192 | a read is resolved locally if and only if the key is evicted, or the cached list holds the error shard or an active or sealed shard for it |
| `EndToEnd.SettledClientAgrees` | pkg/client/client.go:87-143 | on every local hit, a client whose Watch stream has settled has the server's own answer if and only if the routed bucket's active is fresh |
| `RetentionRace.RetentionIsSafe` | internal/retention/retention.go:43-84 | with any store calls and clock advances between listing, checking and marking, a marked shard was sealed and no key is routed to its bucket then or later |
| `RetentionRace.AloneFromStart` | internal/retention/retention.go:43-84 | with nothing in between, the machine cleans exactly what the loop over the evicted buckets cleans |
| `RetentionRace.TickOrder` | internal/retention/retention.go:43-84 | a tick lists once, checks before it marks, and stops after the last bucket; any store call may come at any point |
| `Agent.SafeStep` | internal/agent/agent.go:41-57 | with any server call, any write to a registered shard, and agents that may give up at any point, a step keeps recycling safe if and only if it is none of these: ending the cleaning of a shard that holds data or whose agent still counts on it, by hand or by a stray or late FinishCleaning, or writing to a shard in the pool or between its truncation and the agent's report |
| `Agent.AlwaysSafe` | internal/agent/agent.go:41-57 | every state of a trace without such a step is safe |
| `Agent.DisciplineSuffices` | internal/agent/agent.go:48-57 | leaving the end of cleaning to each shard's own agent and writing to no shard stored as cleaning or standby avoids them all |
| `Agent.TruncatesOnlyWhileCleaning` | internal/agent/agent.go:41-57 | truncation runs only while the stored state is cleaning, in every interleaving of agents, server calls and writes without an endangering step |
| `Agent.StandbyPoolIsEmpty` | internal/agent/agent.go:41-57 | in the same interleavings every shard in the standby pool holds no data |
| `Agent.DataLostOnlyInCleaning` | internal/agent/agent.go:48-57 | in the same interleavings data disappears only by truncation of a shard in cleaning |
| `AgentTicks.TickObserves` | internal/agent/agent.go:17-41 | a tick reports size and heartbeat first and learns the stored state |
| `AgentTicks.CleaningTick` | internal/agent/agent.go:48-57 | a tick on a shard in cleaning empties it and returns it blank to the pool, no other row changes |
| `AgentTicks.DrainingTick` | internal/agent/agent.go:42-47 | a tick on a draining shard ends with its ready flag up, no other row changes |
| `AgentTicks.QuietTick` | internal/agent/agent.go:41-59 | in any other state the agent neither truncates nor drains nor reports again |
| `AgentRaces.ManualPatchRace` | internal/store/store.go:552-585 | a trace from the empty cluster whose one endangering step, a manual patch out of cleaning, ends in a truncation of an active shard with data |
| `AgentRaces.SecondAgentRace` | internal/agent/agent.go:48-57 | the same with a FinishCleaning by a second agent as the one endangering step |
| `AgentRaces.LateWriteRace` | internal/agent/agent.go:48-57 | a trace whose one endangering step, a write of a client with a stale cache after the truncation, ends with data in the standby pool |
| `AgentRaces.LateReportRace` | internal/grpcapi/server.go:354-367 | a trace whose one endangering step, a ReportCleaned that arrives one cleaning later, ends with data in the standby pool |
| `AgentRaces.AboutToTruncate` | internal/agent/agent.go:17-59 | the state these races start from is reached without any endangering step |
| `Watch.Broadcast.constructor` | internal/topology/broadcast.go:14-16 | starts with no subscriber |
| `Watch.Broadcast.Notify` | internal/topology/broadcast.go:18-28 | offers the version to every subscriber's one-slot buffer, dropping it where the slot is full |
| `Watch.Broadcast.Subscribe` | internal/topology/broadcast.go:30-36 | adds a fresh empty channel and returns the last version |
| `Watch.Broadcast.Unsubscribe` | internal/topology/broadcast.go:36-41 | removes and closes exactly that channel; no subscriber ever has a closed channel, so nothing is sent on one and none is closed twice |
| `Watch.Broadcast.Receive` | internal/grpcapi/server.go:179-180 | takes the buffered version, if there is one |
| `Watch.StreamConverges` | internal/grpcapi/server.go:150-192 | an idle stream with an empty channel knows every version broadcast since it subscribed, although sends are dropped |
| `Watch.EventsAreCurrent` | internal/grpcapi/server.go:175-190 | every event lists the shards of a store state at least as new as the version it announces |
| `Watch.VersionsNeverDecrease` | internal/grpcapi/server.go:175-190 | versions on one stream never decrease |
| `Watch.AnnouncedIsRead` | internal/grpcapi/server.go:184-186 | the version never has to be raised to the notified one |
| `Watch.QuietStreamIsExact` | internal/grpcapi/server.go:150-192 | once the latest version was broadcast and the stream is idle, a client that did not have it has been sent it, and the last event is exactly the current topology |
| `Watch.KnownIsSent` | internal/grpcapi/server.go:150-192 | the version a client is taken to know is that of the last event, or the one it subscribed with |
| `Watch.SentExactly` | internal/grpcapi/server.go:155-190 | every build is sent, except a first one no newer than the version the client subscribed with |
| `Watch.BuildAlone` | internal/grpcapi/server.go:416-450 | with nothing in between, a build sends the topology of the store as it is |
| `Watch.NotifyAlone` | internal/grpcapi/server.go:53-61 | with nothing in between, a version that is read and broadcast reaches an idle stream |

## Left out

- PostgreSQL itself: connection pool, migrations, lock waits, SKIP LOCKED and the optimistic version checks, which cannot fail inside a transaction that holds the row lock.
- The columns sealed_at, created_at and updated_at, the mode column, the 64-character limit of bucket_id, shard_events, metrics, tracing, logging, ops HTTP, the CLI and environment configuration.
- Topology.BuildTopology: leaves out reported_bytes, the row version, max_bytes and mode of the message, because no route depends on them and reported_bytes changes without a version bump, so no claim that a stream is exact could include them.
- gRPC transport, cluster-key checks and status-code mapping.
- xxhash64, strings.ToLower and time.Parse(time.RFC3339) are parameters (`Bucket.Lib`); only `SecondsAndMillisecondsAgree` asks anything of them, namely that the RFC 3339 parser refuses bare numbers.
- Float keys with a fractional part, numbers beyond 2^53 on the wire and json.Number keys on the wire: a float64 does not carry them exactly, so no agreement is claimed.
- JSON parsing in ParseSpec: the model starts from the parsed spec and its validity condition.
- Dates further than Go's time package can represent, and int64 overflow of the window bounds for indices near the int64 limits.
- AutoPromoteIfNoActive and the seal and health ticks are atomic steps where their properties are stated; `WriterRaces` shows what the first one loses otherwise, and `ResolveRace` runs it statement by statement inside a resolver call.
- The retention tick, the agent's tick and the Watch loop also appear as step machines on values, not as objects, because their properties are about interleavings; aliasing between goroutines is not modelled.
- The agent's SQL on data shards (REVOKE, terminate, TRUNCATE, size queries): one "holds data" mark per shard.
- ScatterQuery, ListBucketShards, the client's explicit refresh, and the order in which refresh and Watch overwrite the client cache.
- ResetSchema and SetLastSeenAt, which only tests use.
