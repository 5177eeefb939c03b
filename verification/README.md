# A model of the HTTP-to-SMTP relay

This project models the stateful core of the relay and proves what it promises over whole runs.

- `token_bucket`, `bucket_table`, `rate_limiter`: the three-tier rate limiter, from one lazily refilled bucket to
  the capacity-bounded table of buckets and the three tiers asked in order.
- `status`, `memory_store`, `memory_runs`, `sweep_invisible`, `two_lock_get`: the submission status store in
  memory, its counters, capacity, sweeping, and the lookup that takes two locks.
- `text_order`, `timestamps`, `sqlite_store`, `sqlite_lifecycle`, `backends_agree`: the SQLite store, which compares
  timestamps as text, the handlers running against it, and its agreement with the memory store.
- `redis_store`: the Redis store, command by command, under any interleaving and failures.
- `handlers`, `lifecycle`, `bulk`, `relay`, `bulk_relay`: single and bulk submission, first as a small machine running
  next to everything else, then as the handler bodies, each shown to follow it.
- `base64`, `policy`, `validation`, `recipient_domains`: the request validator and what it passes on.

Objects that the program updates in place are classes; each of their methods is tied to a function on values, and the
laws are proved about those functions. A region held under one lock is one step. Time is an argument: real seconds for
the limiter, integer nanoseconds for the stores. Request ids are fresh. The SMTP server, the mail builder, the address
parser and Redis failures are inputs that may decide anything they can decide.

## Where the code differs from what one might expect

All but the last are proved, each with its exact condition.

- A sweep drops a record at the very instant it expires, a lookup still serves it (`SweepInvisible.SweepVisibleOnlyAtExpiry`);
  SQLite lookups side with the sweep (`BackendsAgree.AnswersDifferOnlyAtExpiry`).
- An update without a message keeps the old message in memory and in Redis and erases it in SQLite
  (`BackendsAgree.MessagesAgree`).
- SQLite evicts at exactly full, and a put that starts above the limit may end one above it (`SqliteStores.PutRowSize`,
  `SqliteStores.SweepRowsSize`).
- A single send that uses a disabled feature stores validation_failed and replies feature_disabled
  (`Handlers.StoredCodeMatchesReply`); in bulk both are internal_error.
- A Redis key can outlive its record, although rfcs/done/830 says it never does. The lifetime is computed from one clock
  reading and counted from a later moment, so a rewritten key outlives its record as soon as the delay exceeds the part
  of a second that was rounded off, or when less than a second was left (`RedisStores.UpdatedKeyLifetime`,
  `RedisStores.LateWriteOutlives`); with an unchanged ttl a new key does so as soon as any time has
  passed (`RedisStores.InsertedKeyLifetime`).
  Lookups still refuse the record (`RedisStores.LookupsRespectExpiry`).
- The table of IP buckets is a FIFO, not the LRU its name says (`BucketTables.TableRefinesFifo`).
- The comment on `set_recipient_metadata` says it does nothing on a non-terminal record; the code writes on any
  unexpired record of the owner, and SQLite on an expired one too.

## Model

| member | source | states |
|---|---|---|
| TokenBuckets.TokenBucket.TryConsumeOne | crates/http-smtp-rele/src/rate_limit.rs:49-58 | the in-place call leaves exactly the bucket, and returns exactly the verdict, of the value function the lemmas below are about |
| TokenBuckets.TokenBucket.RefillTo | crates/http-smtp-rele/src/rate_limit.rs:60-65 | the in-place refill is the value refill, capped at the burst, with a clock that may read backwards |
| TokenBuckets.RefillTwice | crates/http-smtp-rele/src/rate_limit.rs:60-65 | refilling at t1 and then at t2 is refilling at t2 |
| TokenBuckets.ErasureChangesNoVerdict | crates/http-smtp-rele/src/rate_limit.rs:49-65 | erasing any set of extra refills and refused calls from any run changes no verdict of what remains, Retry-After included, and leaves an equivalent bucket |
| TokenBuckets.RetryAfterIsExact | crates/http-smtp-rele/src/rate_limit.rs:49-58 | after a refusal asking for w seconds, through any refills and further refusals, every call from w on succeeds and every call up to w - 1 fails |
| TokenBuckets.RetryAfterWithinAMinute | crates/http-smtp-rele/src/rate_limit.rs:55-56 | any bucket with a positive per-minute rate asks for 1 to 60 seconds |
| TokenBuckets.ZeroRateNeverRecovers | crates/http-smtp-rele/src/rate_limit.rs:55-56 | with rate 0 (a key may be configured so) an empty bucket refuses for ever and asks for the largest u64 |
| TokenBuckets.AcceptedWithinBudget | crates/http-smtp-rele/src/rate_limit.rs:49-65 | over any run of calls in [s, t], admissions plus what is left never exceed what was available at s plus rate * (t - s) |
| TokenBuckets.BucketWindowBound | crates/http-smtp-rele/src/rate_limit.rs:49-65 | any one bucket, such as the global one, admits at most burst + rate * (t - s) calls in [s, t] |
| TokenBuckets.Dominance | crates/http-smtp-rele/src/rate_limit.rs:39-65 | on the same arrival times a bucket with at least the burst, rate and opening balance has admitted at least as many calls at every prefix, although single verdicts may differ |
| BucketTables.GetOrInsertKeepsWellFormed | crates/http-smtp-rele/src/rate_limit.rs:102-114 | the order stays duplicate-free and lists exactly the map's keys, within capacity; the key asked for is resident afterwards (the final unwrap cannot fail); no other bucket changes; at most the oldest entry goes, only for a new key meeting a full table |
| BucketTables.TableRefinesFifo | crates/http-smtp-rele/src/rate_limit.rs:86-115 | after any accesses the residents are the last cap insertions in insertion order: a FIFO, not an LRU |
| BucketTables.WindowBudget | crates/http-smtp-rele/src/rate_limit.rs:102-114 | admissions of one key plus its remaining budget are bounded by its opening budget, one burst per eviction and the refill |
| BucketTables.WindowBound | crates/http-smtp-rele/src/rate_limit.rs:172-178 | in any run from an empty table and any interval [s, e], a key evicted k times in it is admitted at most (k + 1) * burst + rate * (e - s) times |
| BucketTables.LruMap.CheckOne | crates/http-smtp-rele/src/rate_limit.rs:172-178 | get_or_insert followed by try_consume on the shared bucket object has the verdict and the new table of the value function, and disturbs no other bucket object |
| BucketTables.LruMap.BucketFor | crates/http-smtp-rele/src/rate_limit.rs:102-114 | the mutable get_or_insert is the value function; a resident key changes nothing |
| BucketTables.LruMap.EvictIfFull | crates/http-smtp-rele/src/rate_limit.rs:103-108 | the eviction step removes the front of the order from both structures exactly when the table is full and the key is new |
| RateLimiters.NewLimiterIsValid | crates/http-smtp-rele/src/rate_limit.rs:136-165 | for every configuration all bursts resolve to at least 1 and the limiter starts valid |
| RateLimiters.RateLimiter.constructor | crates/http-smtp-rele/src/rate_limit.rs:136-165 | the limiter object starts as the configured value, its tiers sharing no bucket |
| RateLimiters.RateLimiter.CheckGlobalTier | crates/http-smtp-rele/src/rate_limit.rs:167-170 | one locked call of the global tier, tied to the value function |
| RateLimiters.RateLimiter.CheckIpTier | crates/http-smtp-rele/src/rate_limit.rs:172-178 | one locked call of the IP tier, tied to the value function |
| RateLimiters.RateLimiter.CheckKeyTier | crates/http-smtp-rele/src/rate_limit.rs:184-197 | one locked call of the key tier with its overrides, tied to the value function |
| RateLimiters.KeyTierIsPrivate | crates/http-smtp-rele/src/rate_limit.rs:184-197 | whatever other keys do, a key is admitted exactly as often as one bucket of its own would admit its calls, with the limits of its first call |
| RateLimiters.KeyWindowBound | crates/http-smtp-rele/src/rate_limit.rs:184-197 | the key tier never evicts: in any interval a key is admitted at most burst + rate * (t - s) times |
| RateLimiters.MessageSpends | crates/http-smtp-rele/src/api/send_bulk.rs:181-210 | a message passes exactly when all three tiers hold a token; a refused one names the first empty tier and has cost a token in each tier before it |
| RateLimiters.TiersDecideByTokens | crates/http-smtp-rele/src/rate_limit.rs:167-197 | with each tier asked at its own time, a message passes exactly when every tier then holds a token, and the first that does not is named |
| RateLimiters.TierAnswers | crates/http-smtp-rele/src/rate_limit.rs:167-197 | each tier reports its bucket's verdict and seconds, under its own name, and keeps the bucket the call leaves |
| RateLimiters.NewcomersPass | crates/http-smtp-rele/src/rate_limit.rs:110-111 | a caller without a bucket in a tier is never refused by it |
| RateLimiters.TierRetryAfterIsExact | crates/http-smtp-rele/src/rate_limit.rs:167-197 | a caller refused by a tier of positive rate passes it from the reported seconds on and not up to a second earlier, if no token was taken meanwhile and its bucket stayed |
| RateLimiters.AskRetryAfterIsExact | crates/http-smtp-rele/src/api/send.rs:105-120 | the same for a message that went through the tiers: the seconds it is told are exact for the tier that refused it |
| RateLimiters.FirstKeyCall | crates/http-smtp-rele/src/rate_limit.rs:184-197 | the first call of a key passes and leaves a bucket with the rate and burst configured for the key, or the default where it has none |
| RateLimiters.FirstIpCall | crates/http-smtp-rele/src/rate_limit.rs:172-178 | the first call of an address passes and leaves a bucket with the limits of the IP tier |
| RateLimiters.NewLimiterLimits | crates/http-smtp-rele/src/config.rs:307-321 | setting by setting, which rate and which burst (own, legacy or default) reach which tier |
| RateLimiters.BulkAdmissionIsAPrefix | crates/http-smtp-rele/src/api/send_bulk.rs:108-114 | with no refill and no other traffic exactly the first min(floor g, floor i, floor k) messages pass, and the tiers lose exactly min(n, g), min(n, g, i) and min(n, g, i, k) tokens |
| Statuses.LeadsIsPaths | crates/http-smtp-rele/src/status.rs:50-54 | the order on statuses used below is exactly reachability along the edges of the lifecycle |
| Statuses.FollowsIsTransitive | crates/http-smtp-rele/src/status.rs:50-54 | a later record of a later record is a later record |
| Statuses.LifecycleSpelledOut | crates/http-smtp-rele/src/status.rs:39-54 | the edges, what is reachable from each status, and the three final statuses, listed |
| RecipientDomains.RecipientDomainsFrom | crates/http-smtp-rele/src/status.rs:183-191 | the loop returns, each once and in order, exactly the lowered texts after the last @ of the addresses that have one |
| RecipientDomains.FromAddressOfParts | crates/http-smtp-rele/src/status.rs:25-28 | an address local@domain without a further @ has the lowered domain |
| RecipientDomains.SameRecipientsSameDomains | crates/http-smtp-rele/src/status.rs:183-191 | the result does not depend on order, repeats, letter case, or who is in `to` and who in `cc` |
| RecipientDomains.KeptDomainsArePermitted | crates/http-smtp-rele/src/validation.rs:416-456 | every domain recorded with an accepted request is permitted by the server's and the key's lists, and there is at least one |
| MemoryStores.InMemoryStatusStore.PutReceived | crates/http-smtp-rele/src/status_memory.rs:61-80 | insert-only put: some oldest record is evicted exactly when a new id meets a full, non-empty map, and the counters move |
| MemoryStores.InMemoryStatusStore.SetRecipientMetadata | crates/http-smtp-rele/src/status_memory.rs:82-98 | metadata is written on the owner's unexpired record, terminal or not, and nothing else changes |
| MemoryStores.InMemoryStatusStore.UpdateRecord | crates/http-smtp-rele/src/status_memory.rs:100-125 | an update takes effect exactly on the owner's unexpired, non-terminal record; a missing message keeps the old one |
| MemoryStores.InMemoryStatusStore.GetReadPhase | crates/http-smtp-rele/src/status_memory.rs:128-142 | the read-locked part of get: its answer, or the decision to take the write lock |
| MemoryStores.InMemoryStatusStore.GetWritePhase | crates/http-smtp-rele/src/status_memory.rs:144-153 | the write-locked part looks again and deletes only a record that is expired now, counting it once |
| MemoryStores.InMemoryStatusStore.Get | crates/http-smtp-rele/src/status_memory.rs:127-154 | left alone, get answers as one indivisible lookup does and deletes exactly what it may |
| MemoryStores.InMemoryStatusStore.ExpireOldRecords | crates/http-smtp-rele/src/status_memory.rs:156-182 | the sweep keeps what expires after now, then evicts as many as there are too many, oldest first, and moves the counters |
| MemoryStores.InMemoryStatusStore.EvictOverflow | crates/http-smtp-rele/src/status_memory.rs:170-181 | removing the sorted keys one at a time removes a set of the right size, none younger than any record kept |
| MemoryStores.InMemoryStatusStore.RecordCount | crates/http-smtp-rele/src/status_memory.rs:184-188 | the count is the size and becomes the gauge |
| MemoryStores.InMemoryStatusStore.ReloadConfig | crates/http-smtp-rele/src/status_memory.rs:190-192 | only the limit changes |
| MemoryStores.Metrics.StatusRecordsExpired | crates/http-smtp-rele/src/metrics.rs:182-187 | gauge and expiry counter move together by the same amount |
| MemoryRuns.PutKeepsYoungest | crates/http-smtp-rele/src/status_memory.rs:61-80 | a put leaves at most max(size before, limit), evicts only a record of least creation time and changes no other |
| MemoryRuns.SweepKeepsYoungest | crates/http-smtp-rele/src/status_memory.rs:156-182 | a sweep leaves all live records or, if there are more, as many as the limit; everything it drops is expired or no younger than everything it keeps |
| MemoryRuns.CapacityHolds | crates/http-smtp-rele/src/status_memory.rs:61-182 | under a fixed configuration the bound holds in every reachable state |
| MemoryRuns.SweepRestoresCapacity | crates/http-smtp-rele/src/status_memory.rs:190-192 | after a reload that lowers the limit the first sweep restores the bound for good |
| MemoryRuns.RunConserves | crates/http-smtp-rele/src/status_memory.rs:61-188 | every step of every run preserves the conservation law, whatever state it starts in |
| MemoryRuns.ConservationFromStart | crates/http-smtp-rele/src/metrics.rs:173-201 | in every reachable state inserted = live + expired + evicted, both expiry counters equal the expired ones, and the gauge is live plus the evictions since the last count |
| MemoryRuns.TransitionsAreCounted | crates/http-smtp-rele/src/metrics.rs:173-180 | over any run the transition counters have seen exactly one received per record inserted and one status and code per update that took effect |
| MemoryRuns.RecordLivesForItsTtl | crates/http-smtp-rele/src/status.rs:77-98 | a new record is found, by its owner alone, up to and including ttl_seconds after it was made, as received and without recipients |
| MemoryRuns.UpdateIsVisible | crates/http-smtp-rele/src/status_memory.rs:100-125 | what a lookup finds after an update, field by field, and exactly when the update changes nothing |
| MemoryRuns.MetadataIsVisible | crates/http-smtp-rele/src/status_memory.rs:82-98 | what a lookup finds after new recipient metadata, field by field, terminal or not |
| SweepInvisible.SweepsAreInvisible | crates/http-smtp-rele/src/status_memory.rs:156-168 | deleting all sweeps from a run changes no lookup result and no effect of any update, given fresh ids, a store that is not full at any put, and that every lookup and write reads a later clock than every sweep before it; readings may repeat and a sweep may run long after it read its clock |
| SweepInvisible.SweepsCanMove | crates/http-smtp-rele/src/status_memory.rs:156-168 | any two such runs from the empty store that differ only in where they sweep observe the same |
| SweepInvisible.SweepVisibleOnlyAtExpiry | crates/http-smtp-rele/src/status_memory.rs:163 | a sweep changes a lookup if and only if sweep and lookup happen at the very instant the owner's record expires: the sweep test is `>` where expiry is strict |
| TwoLockGet.LookupsAreLinearizable | crates/http-smtp-rele/src/status_memory.rs:127-154 | every interleaving of two-phase lookups with all other operations has the final store and the answers of a run of indivisible lookups, each at the moment it answers |
| TwoLockGet.LookupContract | crates/http-smtp-rele/src/status_memory.rs:127-154 | the indivisible lookup returns only the owner's unexpired record, deletes exactly the owner's expired one, counts exactly what it deletes, and leaves the store alone on an owner mismatch |
| Timestamps.CivilRoundTrip | crates/http-smtp-rele/src/status_sqlite.rs:137-139 | turning an instant of the years 0000 to 9999 into a calendar date and time and back is the identity |
| Timestamps.CivilFormIsUnique | crates/http-smtp-rele/src/status_sqlite.rs:137-139 | and every valid date and time of these years is the civil form of its instant |
| Timestamps.FractionOrder | crates/http-smtp-rele/src/status_sqlite.rs:137-139 | fractions printed with 0, 3, 6 or 9 digits before the offset compare as numbers |
| Timestamps.StringOrderIsTimeOrder | crates/http-smtp-rele/src/status_sqlite.rs:180-195 | comparing the stored text of two instants compares the instants, and equal text means equal instants, although the texts differ in length |
| SqliteStores.UnexpiredMeansLater | crates/http-smtp-rele/src/status_sqlite.rs:212-220 | the SQL test expires_at > now on text is the test on instants |
| SqliteStores.EvictionIsOldestFirst | crates/http-smtp-rele/src/status_sqlite.rs:338-343 | ORDER BY created_at on text evicts no record younger than one it keeps |
| SqliteStores.PutRowSize | crates/http-smtp-rele/src/status_sqlite.rs:331-348 | below the limit a put adds a row; from the limit on it ends at the size it found, but at most one above the limit |
| SqliteStores.SweepRowsSize | crates/http-smtp-rele/src/status_sqlite.rs:331-348 | a sweep that finds exactly the limit evicts one more record |
| SqliteStores.FirstRowsExist | crates/http-smtp-rele/src/status_sqlite.rs:338-343 | the rows the eviction statement selects always exist |
| SqliteStores.RowLookupContract | crates/http-smtp-rele/src/status_sqlite.rs:207-238 | a lookup returns exactly the owner's row before its expiry; a miss deletes the row from the expiry on, whoever owns it, and counts it |
| SqliteStores.RowLivesForItsTtl | crates/http-smtp-rele/src/status_sqlite.rs:114-153 | a new row is found, by its owner alone, before ttl_seconds after it was made |
| SqliteStores.RowUpdateIsVisible | crates/http-smtp-rele/src/status_sqlite.rs:173-203 | what a lookup finds after an update, field by field, and exactly when the update changes nothing |
| SqliteStores.DuplicatePutEvicts | crates/http-smtp-rele/src/status_sqlite.rs:118-152 | a put of an id that is already there evicts and inserts nothing |
| SqliteStores.SqliteStatusStore.EvictIfNeeded | crates/http-smtp-rele/src/status_sqlite.rs:331-348 | the eviction removes an allowed set of oldest rows, at least one from the limit on |
| SqliteStores.SqliteStatusStore.PutReceived | crates/http-smtp-rele/src/status_sqlite.rs:114-153 | evict, then insert or ignore; a duplicate is still preceded by the eviction |
| SqliteStores.SqliteStatusStore.SetRecipientMetadata | crates/http-smtp-rele/src/status_sqlite.rs:155-169 | writes on any row of the owner, expired or terminal, and leaves updated_at |
| SqliteStores.SqliteStatusStore.UpdateRecord | crates/http-smtp-rele/src/status_sqlite.rs:173-203 | updates exactly the owner's unexpired, non-terminal row, replacing the message even when there is none |
| SqliteStores.SqliteStatusStore.Get | crates/http-smtp-rele/src/status_sqlite.rs:207-238 | answers from the owner's unexpired row, and otherwise deletes an expired row of that id |
| SqliteStores.SqliteStatusStore.ExpireOldRecords | crates/http-smtp-rele/src/status_sqlite.rs:242-261 | deletes the expired rows, then evicts as put does |
| SqliteLifecycle.EventKeepsInv | crates/http-smtp-rele/src/status_sqlite.rs:114-261 | at any capacity every step of every handler, lookup, sweep, eviction, reload and cancellation keeps the invariant and moves each row along at most one edge, although a statement may compare an old clock reading |
| SqliteLifecycle.RowsFollowTheLifecycle | crates/http-smtp-rele/src/status_sqlite.rs:173-203 | between any two moments at which a row exists its status moved along lifecycle edges only, and a terminal row kept its status, code and message |
| SqliteLifecycle.GoneForGood | crates/http-smtp-rele/src/status_sqlite.rs:114-153 | a deleted or evicted row never comes back |
| SqliteLifecycle.AcceptedOnlyAfterDelivery | crates/http-smtp-rele/src/status_sqlite.rs:207-238 | a lookup sees SmtpAccepted only after the SMTP server said yes to that message |
| SqliteLifecycle.RowAgreesWithReply | crates/http-smtp-rele/src/status_sqlite.rs:207-238 | whatever a lookup begun after the reply still finds is terminal and says what the client was told, with the same one exception as in memory |
| BackendsAgree.BackendsGiveSameAnswers | crates/http-smtp-rele/src/status_sqlite.rs:114-261 | from mirrored states, over every ordinary run both backends give every lookup the same status, code, owner, recipients, creation and expiry, and SQLite evicts nothing |
| BackendsAgree.SameAnswersFromStart | crates/http-smtp-rele/src/status_sqlite.rs:114-261 | the same from two empty stores |
| BackendsAgree.AnswersDifferOnlyAtExpiry | crates/http-smtp-rele/src/status_sqlite.rs:212-220 | on mirrored records the answers differ if and only if the owner looks at the very instant of expiry |
| BackendsAgree.MessagesAgree | crates/http-smtp-rele/src/status_sqlite.rs:180-190 | after an update the two messages agree if and only if the update has a message or there was none before |
| RedisStores.UpdatedKeyLifetime | crates/http-smtp-rele/src/status_redis.rs:185-189 | the key written by an update lives no longer than its record if and only if at least a second was left at the clock reading and SET EX arrives within the part of a second that was rounded off |
| RedisStores.InsertedKeyLifetime | crates/http-smtp-rele/src/status_redis.rs:97-112 | the key of a new record lives no longer than the record if and only if the delay since the record was made is covered by a ttl shortened in between: with an unchanged ttl, only if no time has passed |
| RedisStores.LateWriteOutlives | crates/http-smtp-rele/src/status_redis.rs:185-189 | a reachable state in which a key outlives its record although more than two seconds were left at both readings |
| RedisStores.EventKeepsInv | crates/http-smtp-rele/src/status_redis.rs:93-234 | every Redis command of every handler, every reader, failure, dropped key and cancellation keeps the invariant and lets the last written value only move forward |
| RedisStores.KeysFollowTheLifecycle | crates/http-smtp-rele/src/status_redis.rs:145-204 | with one writer per id no schedule ever overwrites a terminal status or changes owner, creation or expiry, even when a late SET EX recreates a deleted key |
| RedisStores.LookupsRespectExpiry | crates/http-smtp-rele/src/status_redis.rs:208-234 | no lookup in any reachable state returns a foreign record or one past its original expiry |
| RedisStores.FromTheStart | crates/http-smtp-rele/src/status_redis.rs:208-234 | from an empty keyspace: of two lookups that find a record, the later one found what the earlier leads to, before the original expiry |
| RedisStores.FoundAgreesWithReply | crates/http-smtp-rele/src/api/send_bulk.rs:212-331 | a terminal record found after the reply carries that handler's own ending; failed writes may only leave it short of the end |
| RedisStores.TwoWritersOverwrite | crates/http-smtp-rele/src/status_redis.rs:145-204 | why one writer is needed: at any times and in either order of the fetches, a terminal status is overwritten by a second handler that fetched before it was written, and is left alone by one that fetched afterwards |
| RedisStores.ReadFindsTheRecord | crates/http-smtp-rele/src/status_redis.rs:208-234 | a lookup returns exactly the owner's stored, unexpired value, and decides to delete exactly the owner's expired one |
| RedisStores.MetadataIsVisible | crates/http-smtp-rele/src/status_redis.rs:118-141 | what a lookup finds after an undisturbed, successful metadata call, field by field |
| RedisStores.UpdateIsVisible | crates/http-smtp-rele/src/status_redis.rs:145-204 | what a lookup finds after an undisturbed, successful update, and exactly when it changes nothing |
| RedisStores.PutIsVisible | crates/http-smtp-rele/src/status_redis.rs:93-116 | a new record is found for as long as the ttl runs; an existing key is left alone |
| RedisStores.CallIsASchedule | crates/http-smtp-rele/src/status_redis.rs:93-204 | a store call left alone, with any of its commands failing, is a schedule of the command-level machine |
| RedisStores.RedisStatusStore.PutReceived | crates/http-smtp-rele/src/status_redis.rs:93-116 | insert-only through EXISTS and SET EX, with a failing EXISTS read as absent |
| RedisStores.RedisStatusStore.SetRecipientMetadata | crates/http-smtp-rele/src/status_redis.rs:118-141 | read, guard, write back with the remaining lifetime |
| RedisStores.RedisStatusStore.UpdateRecord | crates/http-smtp-rele/src/status_redis.rs:145-204 | read, guard (owner, expiry, terminal), write back with the remaining lifetime |
| RedisStores.RedisStatusStore.Get | crates/http-smtp-rele/src/status_redis.rs:208-234 | an error exactly when the connection or GET fails, otherwise only the owner's unexpired record; deletes only the owner's expired key |
| Handlers.StoredCodeMatchesReply | crates/http-smtp-rele/src/api/send.rs:123-131 | for every ending the stored status is terminal, accepted exactly when the reply is, and carries the reply's code if and only if it is not a single send with a disabled feature, which stores validation_failed and replies feature_disabled |
| Handlers.LastUpdateSpelledOut | crates/http-smtp-rele/src/api/send.rs:66-212 | status, code and message stored for every ending, single and bulk, listed |
| Handlers.CodesSpelledOut | crates/http-smtp-rele/src/error.rs:113-127 | the code of every error in a single reply, in a bulk result and in a record, listed |
| Lifecycle.EventKeepsInv | crates/http-smtp-rele/src/api/send.rs:55-213 | every step of every handler, lookup, sweep, reload and cancellation keeps the invariant and moves each record along at most one edge |
| Lifecycle.RecordsFollowTheLifecycle | crates/http-smtp-rele/src/status_memory.rs:100-125 | between any two moments at which a record exists its status moved along lifecycle edges only, its identity and lifetime are unchanged, and a terminal status kept its code and message |
| Lifecycle.GoneForGood | crates/http-smtp-rele/src/status_memory.rs:61-80 | a removed record never comes back |
| Lifecycle.AcceptedOnlyAfterDelivery | crates/http-smtp-rele/src/api/send.rs:175-188 | a lookup sees SmtpAccepted only after the SMTP server said yes to that message |
| Lifecycle.RecordAgreesWithReply | crates/http-smtp-rele/src/api/send.rs:123-213 | once a handler has replied, whatever a lookup still finds is terminal and says what the client was told, code included, with the one exception above |
| Relays.Relay.SendMail | crates/http-smtp-rele/src/api/send.rs:41-214 | the handler body: the reply is Accepted exactly when content type, size, parse, all tiers, validator, builder and SMTP agree, and otherwise the code of the first that does not; tokens are spent only past the envelope; the store holds the trail of that ending |
| Relays.SingleSendSpelledOut | crates/http-smtp-rele/src/api/send.rs:76-212 | step by step, the reply, the stored status and code and the tokens spent by a single send |
| Relays.Relay.SendContent | crates/http-smtp-rele/src/api/send.rs:122-213 | the part from validation on |
| RateLimiters.RateLimiter.AskInOrder | crates/http-smtp-rele/src/api/send.rs:118-120 | the three locked calls of one message, each at its own time, stop at the first refusal and leave the limiter object as the value function says |
| Relays.Relay.TurnAwayAtOnce | crates/http-smtp-rele/src/api/send.rs:66-90 | a rejection before validation stores the code it replies |
| Relays.Relay.StoreRejected | crates/http-smtp-rele/src/api/send_bulk.rs:339-352 | put, then the rejecting update |
| Relays.Relay.PrepareOne | crates/http-smtp-rele/src/api/send_bulk.rs:173-272 | one message of phase one: prepared exactly when limiter, validator and builder agree, or rejected with the code of the first that does not, with its trail in the store |
| Relays.PhaseOneSpelledOut | crates/http-smtp-rele/src/api/send_bulk.rs:181-262 | step by step, the result, and the status, code and message stored, of a message rejected in phase one |
| Relays.PreparedIsVisible | crates/http-smtp-rele/src/api/send_bulk.rs:212-239 | what the owner finds of a prepared message, recipients included |
| Relays.SubmittedIsVisible | crates/http-smtp-rele/src/api/send_bulk.rs:278-333 | what the owner finds once it is submitted |
| Relays.Relay.SubmitOne | crates/http-smtp-rele/src/api/send_bulk.rs:278-333 | phase two of one message: started, then settled as SMTP answers |
| Relays.Relay.PrepareAll | crates/http-smtp-rele/src/api/send_bulk.rs:81-114 | the payload guards change nothing; otherwise the loop's lists, limiter and store are the folds over the messages |
| Relays.PhaseOneDivides | crates/http-smtp-rele/src/api/send_bulk.rs:105-114 | every message is prepared or rejected, once, in request order, a rejected one with its reason |
| Relays.BulkPhaseOneOutcome | crates/http-smtp-rele/src/api/send_bulk.rs:173-272 | with no refill and no other traffic the first min(floor g, floor i, floor k) messages end as their content decides and all later ones as rate limited: bad content still costs tokens |
| Relays.TrailIsASchedule | crates/http-smtp-rele/src/api/send.rs:55-213 | what the handler body does to the store, for either kind of message taken to its end, is a schedule of the handler machine ending in that ending, so what is proved of the machine holds of it |
| Relays.TrailIsVisible | crates/http-smtp-rele/src/api/send.rs:55-213 | the owner then finds the ending and, past validation, the recipients; no other record changed, except that the put may have evicted one |
| BulkSend.StepKeepsBulkInv | crates/http-smtp-rele/src/api/send_bulk.rs:104-137 | every step of the request, of other handlers and of the environment keeps the protocol's invariant |
| BulkSend.SubmissionsAreBounded | crates/http-smtp-rele/src/api/send_bulk.rs:116-132 | in every reachable state no message is with SMTP during phase one, and then at most bulk_concurrency, unless that is 0 |
| BulkSend.WaitingCanStart | crates/http-smtp-rele/src/api/send_bulk.rs:117-129 | after phase one a waiting message can be started whenever fewer than bulk_concurrency are held, and always if it is 0 |
| BulkSend.BulkNeverStalls | crates/http-smtp-rele/src/api/send_bulk.rs:124-137 | until the request is complete one of its own steps is enabled |
| BulkSend.StepsMakeProgress | crates/http-smtp-rele/src/api/send_bulk.rs:124-137 | every own step decreases a measure and no foreign step increases it |
| BulkSend.SortAscends | crates/http-smtp-rele/src/api/send_bulk.rs:139-142 | sorting results with distinct indices yields the same results, ascending |
| BulkSend.ResponseListsEveryMessage | crates/http-smtp-rele/src/api/send_bulk.rs:139-166 | in a complete request result i is at index i, accepted is the number of accepted results and rejected that of the others |
| BulkSend.ResponseIgnoresSchedule | crates/http-smtp-rele/src/api/send_bulk.rs:116-142 | two complete requests whose messages ended alike have the same response, whatever schedule, completion order and concurrency |
| BulkSend.ResponseAgreesWithStore | crates/http-smtp-rele/src/api/send_bulk.rs:278-333 | any record of the request still found is terminal, accepted exactly when its result says so, and has the result's code |
| BulkSend.BulkRequestIsSound | crates/http-smtp-rele/src/api/send_bulk.rs:73-167 | for any run from any reachable system: at most bulk_concurrency messages (any number if 0) are with SMTP, a waiting one can start while fewer are held, an own step is enabled until the request is complete, and a complete request lists every message at its index in agreement with the store and counts them right |
| BulkRelays.MessageIsPrepared | crates/http-smtp-rele/src/api/send_bulk.rs:173-272 | what phase one is proved to do with one message, prepared or rejected, is a schedule of the protocol |
| BulkRelays.PhaseOneIsASchedule | crates/http-smtp-rele/src/api/send_bulk.rs:104-114 | for fresh ids and ordered clocks the loop of phase one is a schedule of the protocol that ends with the store, the rejected list and the prepared messages the method is proved to compute |
| BulkRelays.WaitingArePrepared | crates/http-smtp-rele/src/api/send_bulk.rs:105-114 | the messages that then wait for a permit are exactly those the loop listed as prepared |
| BulkRelays.SubmissionIsASchedule | crates/http-smtp-rele/src/api/send_bulk.rs:124-137 | what phase two is proved to do with one message is acquire, work, release and join of the protocol, ending with the same store and result |
| BulkRelays.PlacesKept | crates/http-smtp-rele/src/api/send_bulk.rs:116-137 | in phase two, whatever the schedule and whatever else happens, a rejected message keeps its reason and only the SMTP server decides the others |
| BulkRelays.ResponseFromPlaces | crates/http-smtp-rele/src/api/send_bulk.rs:139-166 | the complete response gives a rejected message its reason and any other one what the SMTP server said |
| BulkRelays.ResponseIsDecided | crates/http-smtp-rele/src/api/send_bulk.rs:73-167 | from admission to response: with no refill and no other traffic in phase one, and any schedule of phase two, result i is rate limited from min(floor g, floor i, floor k) on, and before it carries the literal code of the first of features, rules, builder and SMTP that fails; both counts are those of the results |
| Base64.DecodeIsCanonical | crates/http-smtp-rele/src/validation.rs:281-284 | the decoder accepts exactly the encodings of section 4 of RFC 4648: Decode(s) = d if and only if s = Encode(d) |
| Base64.AlphabetIsStandard | crates/http-smtp-rele/src/validation.rs:281-284 | the digits are those of table 1 of RFC 4648 |
| Base64.QuadIsTheSameNumber | crates/http-smtp-rele/src/validation.rs:281-284 | four digits spell in base 64 the number that three bytes spell in base 256 |
| Base64.EncodingByGroups | crates/http-smtp-rele/src/validation.rs:281-284 | groups of three bytes, and the padded forms of one or two left over |
| Base64.EncodedLength | crates/http-smtp-rele/src/validation.rs:273-279 | n bytes encode to 4 * ceil(n / 3) characters |
| Policies.CheckEnforcesPolicy | crates/http-smtp-rele/src/validation.rs:399-456 | the two chained checks accept exactly the addresses with a domain that every non-empty list of the server and the key permits |
| Policies.CheckOfParts | crates/http-smtp-rele/src/validation.rs:399-456 | the same for an address given as local@domain, list by list |
| Policies.DomainOfParts | crates/http-smtp-rele/src/policy.rs:55-57 | the domain of local@domain is domain, if that holds no @ |
| Policies.ListedMeansEqualWhenLowered | crates/http-smtp-rele/src/policy.rs:30-52 | an entry lists a text exactly when both are equal once lowered |
| Policies.SameLetter | crates/http-smtp-rele/src/policy.rs:30-52 | two characters compare equal exactly when they are the same or the same letter of A to Z in either case |
| Policies.FindKeyFindsTheFirst | crates/http-smtp-rele/src/validation.rs:405-405 | the entry used is the first with the caller's id, and there is none only if no entry has it |
| Policies.AllowlistDoesNotOverrideDomains | crates/http-smtp-rele/src/policy.rs:48-57 | an address local@domain on the key's allowlist is refused exactly when its domain is missing from a non-empty domain list |
| Policies.LoweringIsInvisible | crates/http-smtp-rele/src/validation.rs:416-456 | lowering the domain first changes no case-insensitive comparison |
| Validations.PreCheckIsHarmless | crates/http-smtp-rele/src/validation.rs:273-279 | the test max * 4 / 3 + 8 on the encoded length turns away nothing that decoding would accept |
| Validations.ValidateRecipients | crates/http-smtp-rele/src/validation.rs:166-170 | the recipient loop accepts exactly the lists whose every address is well-formed and permitted |
| Validations.ValidateReplyTo | crates/http-smtp-rele/src/validation.rs:222-231 | the reply-to loop accepts exactly the lists of well-formed addresses |
| Validations.ValidateAttachment | crates/http-smtp-rele/src/validation.rs:253-292 | one attachment passes exactly when name, type, encoding and decoded size are acceptable, and is decoded unchanged |
| Validations.ValidateAttachments | crates/http-smtp-rele/src/validation.rs:242-310 | the loop with its running total accepts exactly the lists within count, per-file and total limits, and decodes every one |
| Validations.ValidateMailRequest | crates/http-smtp-rele/src/validation.rs:139-323 | accepts exactly the requests meeting every declared rule, passes their fields on unchanged, and reports a disabled feature before anything else |
| Validations.AcceptableSpelledOut | crates/http-smtp-rele/src/validation.rs:139-323 | the rule by code points and bytes: features, number and form of addresses, no line break in anything that becomes a header, and every size, in UTF-8 bytes where the code counts bytes, within its limit |
| Validations.TotalSizeIsByteCount | crates/http-smtp-rele/src/validation.rs:294-302 | the running total is the length of all decoded contents together |
| Validations.Utf8LengthIsByteCount | crates/http-smtp-rele/src/validation.rs:366-378 | the byte length of a text is that of its UTF-8 encoding (section 3 of RFC 3629) |

## Left out

- Rounding of `f64`: the limiter is proved over reals, so a token count within rounding error of 1 may decide differently.
- Relays.Relay.Admit: the limiter is held as a value there, not as the `RateLimiter` object whose `AskInOrder` is proved to be the same function; sharing of bucket objects is treated in `RateLimiters` only.
- Relays.Relay.SendMail: the method body runs without interference; interference and cancellation are treated in `Lifecycle`, to which `Relays.TrailIsASchedule` connects it.
- Relays.Relay.PrepareAll: the method body runs without interference, as does `SubmitOne`; interference and parallelism are treated in `BulkSend`, to which `BulkRelays` connects them.
- Relays.Relay.SubmitOne: `smtp.mode = pipe` is not distinguished, since only the answer matters.
- Handlers.StoredCodeMatchesReply: the text of error messages, Retry-After headers and HTTP status codes are reduced to the error's kind.
- MemoryStores.InMemoryStatusStore.RecordCount: reading the size and setting the gauge is one step; the code sets the gauge after releasing the lock.
- MemoryStores.InMemoryStatusStore.UpdateRecord: the expiry test and the new `updated_at` read the clock once; the code reads it twice under one lock.
- RedisStores.RedisStatusStore.Get: the expiry counter, since readers racing on one expired key each count it; nor is a stored value that does not parse modelled, as every value written is a record.
- SqliteStores.SqliteStatusStore.PutReceived: failing SQL statements, and the tables that turn statuses and codes into text and back.
- Timestamps.StringOrderIsTimeOrder: the printed form (fixed-width date and time, 0, 3, 6 or 9 fraction digits, `+00:00`) is an assumption about chrono; leap seconds and years outside 0000 to 9999 are excluded.
- Policies.CheckEnforcesPolicy: `to_lowercase` is modelled on ASCII letters; internationalised domains that fold otherwise are not.
- Validations.ValidateMailRequest: which error message is reported first among validation errors; overflow of `max * 4 / 3` in `usize`; the syntax of addresses, which is a parameter.
- Statuses: the cast of `ttl_seconds` from u64 to i64 and the overflow of chrono dates.
- BulkSend: a bulk message's rate-limit decision is taken with the step after its put in the machine, where the code decides first and then puts; the store sees the same calls in the same order. Cancelling a bulk request's own messages is a step of `Lifecycle` only.
- `NoopStatusStore`, which stores nothing.
- `record_count` of the Redis store, a scan whose result is approximate.
- HTTP routing, JSON, authentication, logging, configuration merging, mail building and SMTP itself.
