# Coordination layer of isA_user, modelled and proved in Dafny

The services of this repository run as many replicas and many coroutines at once. What keeps them
from charging twice, serving revoked permissions or locking themselves out is a small layer of code
that keeps a little mutable state against a clock: a Redis lock with an idempotent-retry contract, a
read-through cache with a half-open latch, a circuit breaker, a rate limiter that degrades to
memory, a drain on shutdown, a crash-tolerant migration runner, and the tables of the artifact
service. This project models that layer and proves what it promises, over every input, every
interleaving and every pattern of Redis failure.

Check everything with `dafny verify dfyconfig.toml`.

## How the model is built

* **Objects.** A class of the source that updates its fields is a Dafny class with those fields
  (`RedisCache`, `DistributedLock`, `CircuitBreaker`, `InMemoryBackend`, `FallbackBackend`,
  `SlidingWindowCounter`, `Client`, `Manager`, `Database`, and one class for each group of SQL
  tables). Its methods keep the source's branches and loops, and each is proved to do exactly what a
  function on its abstract state says. The theorems are then about those functions.
* **Concurrency.** The code is asyncio: everything between two awaits is one atomic step.
  `GuardProtocol`, `ProbeProtocol`, `OverlapCoherence`, `ServiceClient`, `RateLimitBound`, `Quota`,
  `Artifacts`, `OverlappingAdds` and `GracefulShutdown` are state machines over such steps, and a run
  is any sequence of them. `LockSpec`, `GuardCacheLink`, `ProbeProtocol.GateIsProbe`,
  `RateLimitBound.CheckIsIncrement` and `OverlappingAdds.AddVersionIsItsSteps` prove that the objects'
  operations are the machines' steps.
* **Failure.** A command to Redis (and a `psql` call of the migration runner) ends in one of three
  ways: done, lost before it ran, or applied with its reply lost. The last two raise alike.
* **Time** is one nondecreasing integer clock (milliseconds where the source mixes seconds and
  milliseconds); the rate limiter, whose arithmetic is on floats, uses exact reals.

## What the proofs found

The code does not have every property one might expect of it. Each point below is a lemma; where
the property holds under a condition, the lemma states that condition exactly.

* The handler of `guard` can start once more than there are faulty steps, for every number of
  faults (`GuardSafety.BoundIsReached`).
* A healthy latch can carry a failure time: a write can succeed while a recovery ping is pending
  which then fails (`ProbeProtocol.TidyBrokenExactlyByLateFailure`).
* `delete_pattern(raise_on_error=False)` leaves no matching key exactly when the gate opens and no
  step of its scan raises, and its return value tells neither
  (`ReplicaCoherence.QuietSweepConfirmsIff`).
* A read-through that overlaps an update and its confirmed delete can put the old value back
  (`ReplicaCoherence.OverlappingReadGoesStale`). Over all interleavings the cache stays coherent
  exactly when no key is invalidated while a load that fetched an older value of it has yet to store
  it (`OverlapCoherence.CoherentIffPatient`). When operations do not overlap, reads are transparent
  exactly when no value reads back as another (`ReplicaCoherence.TransparentIffFaithful`).
* Two namespaces can share keys, as "a" and "a:b" do; they keep apart exactly when neither, with a
  colon behind it, begins the other (`CacheSpec.NamespacesApart`).
* An exception `_request` does not catch, cancellation included, leaks a half-open probe slot; once
  all slots have leaked the breaker rejects for ever (`ServiceClient.WedgedIffAllSlotsLeaked`).
* `InMemoryBackend.get_ttl` returns the age of the oldest entry, not the time until it expires as
  its docstring says: 0 instead of 60 right after the first call of a key
  (`WindowSpec.TtlOfNewKey`). The two agree only half-way through the window and where both are zero
  (`WindowSpec.TtlIsTimeToExpiryIff`). The model follows the code.
* Under concurrency a day can book `quota + k - 1` calls (`Quota.BoundIsReached`), and each failed
  usage read can book one more (`Quota.FailedReadsOverbook`).
* Artifacts of one creation time on two sides of a page boundary are skipped
  (`Paging.WalkIsCompleteIffNoTie`).
* With an explicit version number, or when two additions overlap, the version named current need not
  be the highest, which is the one the public reader shows. It is exactly if the explicit number is
  above all others (`Artifacts.ExplicitNumberAgreesIffHighest`), and, for calls that overlap, if no
  other call's pin follows the pin of the highest (`OverlappingAdds.CompletedAddsAgreeIff`).
* An object whose only key is `_v` comes back from KV storage unwrapped
  (`KeyValue.EnvelopeRoundTrip`).
* Installing the signal handlers while requests are in flight makes the next drain end at once
  (`GracefulShutdown.ReinstallForgets`).

## Model

| member | source | states |
|---|---|---|
| GuardCounting.HandlerStartsBounded | core/distributed_lock.py:593-709 | over all interleavings of any number of `guard` clients on one key, the handler starts at most once more than there are steps with a fault (lease lost before publication, handler raised, no or None result, failed cache write, expired entry, missed re-read) |
| GuardCounting.StepIsPaidFor | core/distributed_lock.py:641-688 | each single step keeps the account: a start, or the loss of what covers an earlier start, comes with a fault; this is what the re-check after acquire and the write before release buy |
| GuardCounting.TokensStayDistinct | core/distributed_lock.py:446-464 | no two clients inside the guard ever carry the same token, and the store never holds a token not yet handed out |
| GuardSafety.BoundIsReached | core/distributed_lock.py:593-709 | the bound on starts is exact: for every n some run has n faulty steps and n + 1 starts |
| GuardSafety.LeasesAlwaysHonoured | core/distributed_lock.py:426-512 | in every reachable state, each client whose last successful SET NX or extend has not run out owns the store entry, for at least as long as it believes |
| GuardSafety.MutualExclusion | core/distributed_lock.py:426-512 | two clients holding tokens on one key at once means the earlier lease has run out |
| GuardSafety.LiveLockIsUntouchable | core/distributed_lock.py:194-210 | a live lock changes only by a release or extend of the client that owns it |
| GuardSafety.CachedResultsComeFromHolders | core/distributed_lock.py:613-688 | every outcome marked cached carries a value some client gave to `set_result` while running the handler |
| GuardSafety.OneStartOneValue | core/distributed_lock.py:593-709 | if the handler started once, worker and retriers that finish with a value all have the same one |
| GuardSafety.FaultFreeRunsAgree | core/distributed_lock.py:67-93 | the idempotent-retry contract: in every run without a fault the handler starts at most once, and there is one value with which every client comes away that ran the handler or was served from the cache |
| GuardOutcomes.HitIsServed | core/distributed_lock.py:593-674 | a working read that finds a stored result serves it: on entry, on every turn of the wait, and, once the lock is given back, after the acquire |
| GuardOutcomes.MissMovesOn | core/distributed_lock.py:605-674 | a read that finds nothing: on entry the client goes for the lock with its deadline set, while waiting it sleeps for the poll interval or, past the deadline, gives up as the caller asked, and after the acquire the handler starts |
| GuardOutcomes.WakesAfterSleep | core/distributed_lock.py:639 | a sleeping client tries the lock again once its sleep is over and no sooner |
| GuardOutcomes.AcquireMoves | core/distributed_lock.py:608-626 | an exception ends the guard, a free key is won under a new token, and at a taken one the client looks at the cache again |
| GuardOutcomes.HandlerEnds | core/distributed_lock.py:676-709 | a handler that set a result has it written before the release; one that raised or set none writes nothing |
| GuardOutcomes.ResultIsWrittenThenReleased | core/distributed_lock.py:678-709 | the write stores exactly the result for the cache's TTL while the lock is held, and the release frees the lock exactly if it is still the client's own |
| GuardOutcomes.EveryOutcomeIsEarned | core/distributed_lock.py:593-709 | whatever a finished client came away with, one of its own steps earned it: a stored result it read, the release after its handler, a wait that was over without a result, or an acquire that raised |
| GuardOutcomes.GivingUpIsLate | core/distributed_lock.py:603-639 | in every run a client is declined or refused, as it asked, only at a time no earlier than its first read plus the wait it asked for, when the key was taken and no result was to be read |
| GuardOutcomes.WorkersHaveStarted | core/distributed_lock.py:641-676 | a client that comes away having worked won the lock, re-read the cache, found nothing and started the handler |
| GuardOutcomes.NobodyIsStuck | core/distributed_lock.py:593-709 | a client that has not finished always has a step to take, at the latest when its sleep is over |
| GuardOutcomes.FaultyExactly | core/distributed_lock.py:641-709 | the steps counted as faulty, written out on the store and the client |
| LockSpec.AcquireIsProtocolStep | core/distributed_lock.py:426-464 | `acquire` on the lock object, latch included, does to its key and answers exactly what the protocol's Acquire step does |
| LockSpec.ReadyExactly | core/distributed_lock.py:297-395 | an operation may go on exactly when there is a client, or one can be built, and the latch is closed, or a probe is due, nobody else probes and it is answered |
| LockSpec.AcquireAnswers | core/distributed_lock.py:426-464 | every answer of `acquire` and the entries it leaves, on the entry of the key, the TTL and the fate of the command: None exactly for an entry that has not run out, a ValueError exactly for a TTL that is not positive |
| LockSpec.ReleaseAnswers | core/distributed_lock.py:466-487 | every answer of `release` and the entries it leaves: True exactly when the script ran on the caller's own unexpired entry |
| LockSpec.ExtendAnswers | core/distributed_lock.py:489-512 | every answer of `extend` and the entries it leaves: True exactly when the script ran on the caller's own unexpired entry |
| LockSpec.ReleaseIsProtocolStep | core/distributed_lock.py:466-487 | `release` is the protocol's Release step; it answers True exactly when that step is answered and the caller owns the key, which is then gone, and False exactly when it is answered and the caller does not |
| LockSpec.ExtendIsProtocolStep | core/distributed_lock.py:489-512 | `extend` is the protocol's Extend step; it answers True exactly when that step is answered and the caller owns the key, whose lease then ends `ttl` seconds from now |
| LockSpec.OtherKeysUntouched | core/distributed_lock.py:421-512 | no lock command touches another key |
| LockSpec.FailsClosed | core/distributed_lock.py:374-395 | after an acquire that raised, every operation refuses until the cooldown is over, and while another coroutine probes, without reaching Redis |
| GuardCacheLink.CacheReadIsProtocolRead | core/redis_cache.py:331-389 | the result cache's `get`, through gate and deserialiser, is the protocol's cache read, working or failed |
| GuardCacheLink.CacheWriteIsProtocolWrite | core/redis_cache.py:393-442 | the result cache's `set`, of a value or of the null a handler's None becomes, is the protocol's Write step, and returns True exactly when that step succeeds |
| DistributedLock.DistributedLock.EnsureReady | core/distributed_lock.py:297-395 | the lazy client, the latch, the recovery lock and the probe leave the object as specified and tell whether the operation may go on |
| DistributedLock.DistributedLock.Acquire | core/distributed_lock.py:426-464 | the whole new state of lock object and store, and the answer, for every fate of SET NX EX |
| DistributedLock.DistributedLock.Release | core/distributed_lock.py:466-487 | likewise for the compare-and-delete, with the empty token rejected |
| DistributedLock.DistributedLock.Extend | core/distributed_lock.py:489-512 | likewise for the compare-and-extend, with a non-positive TTL rejected |
| DistributedLock.WaitForLock | core/distributed_lock.py:603-639 | the wait loop always ends, after one attempt or fewer than 2 + wait / poll, given a positive poll interval and a clock that advances by it: with the token of the first attempt that won, the first result re-read, the first exception, or, past the deadline only, the refusal the caller asked for |
| ProbeProtocol.GateIsProbe | core/redis_cache.py:245-285 | an undisturbed pass through the health gate is the protocol's probe and its answer, or no step at all |
| ProbeProtocol.StepsOnLatch | core/redis_cache.py:223-233 | a failing command keeps the time of the first failure, a write heals only an open latch, a health check heals or trips |
| ProbeProtocol.OneProbeInFlight | core/redis_cache.py:245-285 | under all interleavings at most one coroutine of an object awaits a recovery probe |
| ProbeProtocol.ProbesAreSpaced | core/redis_cache.py:235-285 | no probe starts sooner than the cooldown after a failed one, whatever trips or heals the latch in between |
| ProbeProtocol.ProbeDueFromFirstFailure | core/distributed_lock.py:329-340 | further failures do not put the probe off: it is due exactly when the cooldown has passed since the first failure |
| ProbeProtocol.TidyBrokenExactlyByLateFailure | core/redis_cache.py:245-285 | "healthy means no failure time" is broken by exactly one kind of step, a probe failing after the latch was healed |
| ProbeProtocol.HealthyWithTimestampReachable | core/redis_cache.py:427-432 | and a run in which a `set` heals the latch under a pending probe does break it |
| CacheSpec.WriteThenRead | core/redis_cache.py:331-442 | a `set` that returns True healed the latch, and until it expires the value reads back through every healthy cache object; afterwards it is a miss |
| CacheSpec.OpenLatchMisses | core/redis_cache.py:346-360 | an open latch misses without touching Redis until its cooldown is over and while another coroutine probes, and a successful probe then closes it |
| CacheSpec.GateExactly | core/redis_cache.py:199-285 | a read may go on exactly when there is a client, or one can be built, and the latch is closed, or a probe is due, nobody else probes and it is answered |
| CacheSpec.GetAnswers | core/redis_cache.py:331-389 | `get` answers what the payload of an unexpired entry reads back as and otherwise None, changes no entry, and trips the latch when GET raises |
| CacheSpec.SetAnswers | core/redis_cache.py:393-442 | `set` answers True exactly when it was sent with a positive expiry and its reply came; the entry it leaves for every fate, and the latch healed or tripped |
| CacheSpec.DeleteAnswers | core/redis_cache.py:444-462 | `delete` answers True exactly when its reply came, also behind an open latch; the key and no other is gone whenever DEL ran; a DEL that raises trips the latch |
| CacheSpec.DeletePatternAnswers | core/redis_cache.py:464-544 | it fails exactly when the gate is closed or a step raises, which trips the latch; only the raising form says so |
| CacheSpec.PingAnswers | core/redis_cache.py:548-570 | True exactly when a pong came, which closes the latch; anything else trips it |
| CacheSpec.GetOrLoadAnswers | core/redis_cache.py:574-596 | the cached value or else the loaded one, which is offered to the cache unless it is None |
| CacheSpec.NamespacesApart | core/redis_cache.py:326-327 | two different namespaces never share a key exactly when neither, with a colon behind it, begins the other; within one namespace different keys stay different |
| CacheSpec.NamespacesCollide | core/redis_cache.py:151-154 | namespaces "a" and "a:b" do share keys, against the class's own promise |
| RedisCache.RedisCache.AttemptRecovery | core/redis_cache.py:245-285 | a healthy object is recovered already, one whose recovery lock is held is not, and otherwise a probe heals the latch or restarts its cooldown |
| RedisCache.RedisCache.EnterGate | core/redis_cache.py:346-360 | client construction, cooldown test, recovery lock and probe, and whether the operation may go on |
| RedisCache.RedisCache.Get | core/redis_cache.py:331-389 | the whole new state and the value or miss, for every fate of GET and of the deserialiser |
| RedisCache.RedisCache.Set | core/redis_cache.py:393-442 | the whole new state and the answer: unserialisable values, non-positive expiry, lost replies, and healing by a successful write |
| RedisCache.RedisCache.Delete | core/redis_cache.py:444-462 | the whole new state and the answer, for every fate of DEL |
| RedisCache.RedisCache.DeletePattern | core/redis_cache.py:464-544 | the scan loop deletes key by key, stops at the first exception, counts its deletes, and raises or returns as asked |
| RedisCache.RedisCache.Ping | core/redis_cache.py:548-570 | a pong heals the latch, anything else trips it |
| RedisCache.RedisCache.GetOrLoad | core/redis_cache.py:574-596 | read through: a hit skips the loader, a miss offers what it loaded to the cache, None is never offered |
| ReplicaCoherence.TransparentIffFaithful | core/redis_cache.py:574-596 | any number of replicas, any failures, latch trips, recoveries, expiries and evictions: every read of an invalidated key returns what the loader would, exactly when no value reads back as another |
| ReplicaCoherence.AlwaysInSync | core/redis_cache.py:331-544 | in every such run each live entry of a key not awaiting invalidation reads back as the source's value |
| ReplicaCoherence.UnconfirmedExactly | core/redis_cache.py:444-544 | the keys transparency leaves out are exactly those updated without a `delete` that answered True, or a raising `delete_pattern` over them that returned, since |
| ReplicaCoherence.ReturnedSweepIsComplete | core/redis_cache.py:464-544 | a `delete_pattern` that returns has removed every matching live key, one DEL per key counted, and changed no other |
| ReplicaCoherence.QuietSweepConfirmsIff | core/redis_cache.py:506-544 | the quiet form leaves no matching live key, whatever is stored and whatever conforming scan runs, exactly when the gate opens and no step raises |
| ReplicaCoherence.QuietSweepConfirmsNothing | core/redis_cache.py:506-522 | behind an open latch the quiet form returns 0 and the raising form raises, both leaving every key |
| ReplicaCoherence.OverlappingReadGoesStale | core/redis_cache.py:590-596 | a reader overtaken by an update and its confirmed delete restores the old value |
| OverlapCoherence.CoherentIffPatient | core/redis_cache.py:331-596 | provided no value reads back as another: over every interleaving of reads, loaders, stores, updates, deletes and scans of any replicas, every live entry of an invalidated key reads back as the source's value, whatever comes next, exactly when no key is invalidated while a load that fetched an older value of it has yet to store it |
| OverlapCoherence.LoadIsItsSteps | core/redis_cache.py:574-596 | with nothing in between, the miss, the loader and the store are `get_or_load` |
| OverlapCoherence.ThreatsComeFromInvalidations | core/redis_cache.py:444-544 | nothing but such a premature invalidation, by a confirmed DEL or by a scan getting past the key, brings an interleaving into danger |
| OverlapCoherence.PatientReadsAreCurrent | core/redis_cache.py:590-596 | in such a run a read of a key whose last update is confirmed misses or returns what the source holds |
| OverlapCoherence.DeleteConfirms | core/redis_cache.py:444-462 | an answered `delete` confirms the updates of its key so far, in the middle of anything else |
| OverlapCoherence.EndedScanConfirms | core/redis_cache.py:523-528 | a scan that ends without an exception confirms every key of its pattern not updated since it began |
| CircuitHistory.BreakerFollowsHistory | core/circuit_breaker.py:71-102 | the breaker is a function of its call history: closed below the threshold of failures since the last success, else open until the timeout since the last failure, else half-open; it admits accordingly and reports the exact time left |
| CircuitHistory.FoldAgrees | core/circuit_breaker.py:64-143 | every field is the incremental form of a quantity of the history |
| CircuitHistory.SuccessesAreCounted | core/circuit_breaker.py:104-118 | the success count is that of the whole history |
| CircuitHistory.ProbesBounded | core/circuit_breaker.py:88-102 | after a tripping failure and before the next result, nobody is admitted before the timeout and at most `half_open_max_calls` after it |
| CircuitHistory.ThresholdMustBePositive | core/circuit_breaker.py:53-69 | with a threshold below one the rule fails from the start |
| CircuitBreaker.CircuitBreaker.State | core/circuit_breaker.py:71-82 | looking at the state turns an open breaker half-open once its timeout has passed |
| CircuitBreaker.CircuitBreaker.Check | core/circuit_breaker.py:88-102 | the whole new state and the admission or the rejection with its retry time |
| CircuitBreaker.CircuitBreaker.RecordSuccess | core/circuit_breaker.py:104-118 | a success closes the breaker and clears it |
| CircuitBreaker.CircuitBreaker.RecordFailure | core/circuit_breaker.py:120-143 | a failure counts, reopens a half-open breaker, and opens one at its threshold |
| ServiceClient.Client.Request | core/service_client_base.py:149-162 | one request through the breaker: refused, answered or raised, recorded as a success for a status below 500, as a failure for 500 or more, a ConnectError or a timeout, and not at all for any other exception |
| ServiceClient.BreakerIsFoldOfCalls | core/service_client_base.py:149-162 | in every run of concurrent requests the breaker is that of the call history in which those endings, and no others, are successes and failures |
| ServiceClient.ClosedIffFewFailures | core/service_client_base.py:155-162 | so it is closed, and admits every request, exactly while fewer failing endings than the threshold have followed the last status below 500 |
| ServiceClient.SlotsAreAccountedFor | core/service_client_base.py:149-162 | in every run the probe slots in use never exceed requests in flight plus requests leaked since the last record |
| ServiceClient.NoWedge | core/service_client_base.py:149-162 | if every admitted request ends with a response, a ConnectError or a timeout, a full half-open breaker has a request in flight whose end moves it |
| ServiceClient.WedgedIffAllSlotsLeaked | core/circuit_breaker.py:98-102 | a full half-open breaker stays so for ever exactly when nothing is in flight, which takes as many leaked requests as there are slots |
| ServiceClient.WedgeReachable | core/service_client_base.py:160-162 | one cancelled probe is enough to get there |
| RateLimiter.InMemoryBackend.Increment | core/rate_limiter.py:36-49 | the key's list becomes its entries inside the window plus this call, other keys unchanged, and its length is the count |
| WindowSpec.TtlIsTimeToExpiryIff | core/rate_limiter.py:51-57 | `get_ttl` returns the seconds until the oldest entry expires, as its docstring says, exactly half-way through that entry's window or where both are zero |
| WindowSpec.TtlOfNewKey | core/rate_limiter.py:51-57 | right after the first call of a key with a window of 60 it returns 0 instead of 60 |
| RateLimitBound.GetCountIsFullHistory | core/rate_limiter.py:59-104 | at every point of every run `get_count` answers, from memory and from Redis, as the full history of calls would |
| RateLimiter.FallbackBackend.Increment | core/rate_limit_backend.py:143-155 | the first exception from Redis switches to memory for good and the same call is counted there; no other key is touched |
| RateLimiter.SlidingWindowCounter.Check | core/rate_limiter.py:113-134 | allowed exactly up to the limit, with the calls that remain, never below zero, and the window as retry time of a denial |
| RateLimitBound.CheckIsIncrement | core/rate_limiter.py:113-134 | a Check step of the protocol is one call of the counter on what its process sees, and logs the counter's decision |
| RateLimitBound.PeekMoves | core/rate_limit_backend.py:140-155 | a `get_count` on the latched pair prunes and renews the set in Redis, opens the latch for good when it raises, and leaves memory alone |
| WindowSpec.DropIsPrune | core/rate_limiter.py:74-87 | Redis's score removal drops what the in-memory list drops |
| RateLimitBound.BackendsCountFullHistory | core/rate_limiter.py:36-87 | the pruned lists and the expiring Redis set decide every call as the full history of calls would; the expiry never drops a live entry |
| RateLimitBound.EachBackendBounded | core/rate_limiter.py:113-134 | one backend allows at most `requests` calls in any window (t - window, t] |
| RateLimitBound.FallbackBound | core/rate_limit_backend.py:115-155 | n processes sharing one Redis allow at most (n + 1) * `requests` calls in any window, wherever each switches |
| RateLimitBound.PairBound | core/rate_limit_backend.py:115-155 | the latched pair of one process allows at most twice the limit |
| RateLimitBound.RetryAfterSuffices | core/rate_limiter.py:128-134 | after a denial and a silence of `retry_after`, the next call is allowed, whatever Redis does, unless the limit allows none at all |
| Migrations.Database.ApplyServiceMigrations | scripts/migrate_sql.py:183-210 | the upgrade loop, stopped before or after any statement, leaves the database as the specified run does and ends as it does |
| Migrations.Database.BaselineServiceMigrations | scripts/migrate_sql.py:154-180 | the same for the baseline loop with its version bound |
| Migrations.Database.Record | scripts/migrate_sql.py:141-151 | recording inserts a name once and never changes a recorded checksum |
| Migrations.RunsStayConsistent | scripts/migrate_sql.py:126-210 | after any runs, each stopped anywhere, the table holds exactly what was recorded or baselined, every record follows its execution, and nothing executes once recorded |
| Migrations.RecordedNeverRunsAgain | scripts/migrate_sql.py:183-210 | a migration executes again only if its last execution went unrecorded |
| Migrations.HistoryIsExplained | scripts/migrate_sql.py:141-180 | every recorded migration was executed or baselined |
| Migrations.UpgradeTurnStops | scripts/migrate_sql.py:200-210 | whatever becomes of running and of recording a file, what ran has run, what was recorded is recorded, and the run goes on exactly if both went through |
| Migrations.ExecutesInOrder | scripts/migrate_sql.py:82-102 | a migration executes only after all earlier-sorted ones are recorded |
| Migrations.CleanUpgradeCompletes | scripts/migrate_sql.py:191-198 | an undisturbed upgrade completes and applies the whole directory exactly when no recorded checksum differs |
| Migrations.CleanUpgradeExecutes | scripts/migrate_sql.py:200-210 | and it executes every file that was not recorded, and records it right after |
| Migrations.CleanBaselineRecords | scripts/migrate_sql.py:154-180 | an undisturbed baseline records exactly the files up to its version that were not recorded, executes nothing, and stops exactly for a checksum that differs |
| Migrations.UpgradeAfterCompletionDoesNothing | scripts/migrate_sql.py:183-210 | after a completed upgrade every later one of the same directory sends nothing, whatever ran in between |
| Quota.UsageTable.GetTodayUsage | microservices/artifact_service/artifact_repository.py:495-536 | today's calls of the caller, and zero when there is no row or the read fails |
| Quota.UsageTable.RecordUsage | microservices/artifact_service/artifact_repository.py:538-580 | the upsert adds one call to today's row of the caller, and every other row keeps its calls |
| Quota.TableCountsBookings | microservices/artifact_service/artifact_repository.py:547-557 | after every run the table holds, for every caller and day, exactly the number of bookings the run made |
| Quota.CallsEnd | microservices/artifact_service/artifact_service.py:947-955 | a booking, or a failure to book, ends one call of its caller, and only the former is counted, in one row |
| Quota.CheckPassesIff | microservices/artifact_service/artifact_service.py:904-911 | a check lets a call through exactly when fewer calls than the quota have been booked for its caller today, or the usage cannot be read |
| Quota.BookingsBounded | microservices/artifact_service/artifact_service.py:906-955 | with at most k calls of a caller between check and booking, no UTC day books more than quota + k - 1 of them, plus the checks that could not read a spent quota, midnight crossings included |
| Quota.SequentialQuotaIsExact | microservices/artifact_service/artifact_service.py:906-955 | one call at a time and no failed read: the quota is never exceeded |
| Quota.BoundIsReached | microservices/artifact_service/artifact_service.py:906-955 | the overshoot is real for every quota and every k |
| Quota.FailedReadsOverbook | microservices/artifact_service/artifact_repository.py:509-525 | so is the term for failed reads: n of them can book n calls beyond the quota, one after the other |
| Artifacts.Tables.AddVersion | microservices/artifact_service/artifact_service.py:550-581 | the whole new tables and the version or the error, for omitted and explicit numbers |
| Artifacts.AddVersionAnswers | microservices/artifact_service/artifact_service.py:550-581 | who may add a version, when the number or id conflicts, which number an omitted one becomes, and the tables it leaves |
| Artifacts.PinnedShareIsStable | microservices/artifact_service/artifact_service.py:700-754 | any two successful unversioned reads of a pinned share, anywhere in a run, apart or overlapping, show the identical version, whatever statements run in between |
| Artifacts.DeadShareStaysDead | microservices/artifact_service/artifact_service.py:611-616 | once revoked or expired, a share never resolves again |
| ShareReads.ReadShareAnswers | microservices/artifact_service/artifact_service.py:700-740 | every answer of the public reader on the rows: unknown, revoked or expired, wrong organisation, deleted, and otherwise exactly the version asked for, else the pinned, else the highest |
| ShareReads.PublishEffect | microservices/artifact_service/artifact_repository.py:393-415 | publishing adds one unrevoked share under a new token of an existing artifact and touches no other |
| ShareReads.RevokeEffect | microservices/artifact_service/artifact_repository.py:446-470 | revoking reaches the shares it is for and no others, and keeps the time of an earlier revocation |
| ShareReads.RevokedShareIsGone | microservices/artifact_service/artifact_service.py:668-690 | once the revoking statement has run, every read of the share answers Gone |
| ShareReads.DeleteEffect | microservices/artifact_service/artifact_repository.py:304-316 | only its owner deletes an artifact, and only that one |
| ShareReads.DeletedForGood | microservices/artifact_service/artifact_service.py:724-727 | a deleted artifact is shown through none of its shares again |
| Artifacts.SequentialVersionsInOrder | microservices/artifact_service/artifact_service.py:397-438 | in sequential runs without explicit numbers the versions are numbered 1 to n and the current one is the highest |
| Artifacts.ExplicitNumberAgreesIffHighest | microservices/artifact_service/artifact_service.py:728-740 | after an explicit number the public reader and the current version agree exactly when the number is above all others |
| Artifacts.OverlappingAddsDisagree | microservices/artifact_service/artifact_service.py:563-581 | two overlapping additions can leave the lower version current |
| OverlappingAdds.AddVersionIsItsSteps | microservices/artifact_service/artifact_service.py:550-581 | one call with nothing in between is `add_version` |
| OverlappingAdds.AddsAgreeIffHighestPinnedLast | microservices/artifact_service/artifact_service.py:563-581 | any number of overlapping additions, with any failures, end with the highest version current exactly when it was pinned, or current from the start, and nothing else was pinned after that |
| OverlappingAdds.CompletedAddsAgreeIff | microservices/artifact_service/artifact_service.py:563-581 | when none fails, exactly when no other call's pin comes after the pin of the highest version inserted |
| Grants.GrantTable.Approve | microservices/artifact_service/artifact_repository.py:602-655 | an allow+always approval folds onto its row, any other is appended |
| Grants.StandingRowsAreUnique | microservices/artifact_service/artifact_repository.py:602-655 | after any approvals there is at most one allow+always row per artifact, user, tool and server |
| Grants.PromptSkippedExactlyByStandingGrant | microservices/artifact_service/artifact_service.py:1087-1109 | a tool call skips the prompt exactly when the latest approval for it with decision allow and scope always has no expiry or a future one |
| Grants.BestIsForTarget | microservices/artifact_service/artifact_repository.py:657-693 | the grant that lets a call through is the newest unexpired allow+always one of exactly this artifact, user, tool and server |
| Grants.OtherApprovalsAreKept | microservices/artifact_service/artifact_repository.py:638-655 | once, session and deny approvals stay in the table as they were given |
| KeyValue.KvTable.KvPut | microservices/artifact_service/artifact_service.py:1238-1278 | the scope rules, the table's CHECK and the envelope: the whole new table and the reply |
| KeyValue.KvTable.KvDelete | microservices/artifact_service/artifact_service.py:1280-1294 | the scope rules, the removed row and whether it was there |
| KeyValue.KvAnswers | microservices/artifact_service/artifact_service.py:1185-1310 | who may read, put and delete and what they are told: personal requests take a user, shared writes an artifact that has opted in, nobody writes under the sentinel's name, and a put returns what a later get will |
| KeyValue.EnvelopeRoundTrip | microservices/artifact_service/artifact_repository.py:813-829 | a value comes back as stored unless it is an object whose only key is `_v`, which comes back unwrapped |
| KeyValue.ReadsReturnLastPut | microservices/artifact_service/artifact_repository.py:734-847 | after any writes and deletes by anybody, a read returns what was last put into exactly that slot |
| Paging.WalkIsCompleteIffNoTie | microservices/artifact_service/artifact_repository.py:176-232 | following cursors ends, and yields every match exactly once in order exactly when no page boundary cuts through artifacts of one creation time |
| Paging.WalkYieldsEachMatchOnce | microservices/artifact_service/artifact_repository.py:176-232 | with distinct creation times the walk yields exactly the caller's own undeleted artifacts of the scope's visibilities with a matching title, strictly descending |
| Paging.PageAnswers | microservices/artifact_service/artifact_repository.py:176-232 | a page holds at most the limit of the caller's own, undeleted, matching artifacts of the scope, older than the cursor, in order, and there is a next page exactly when more are left |
| Paging.TotalsCountDown | microservices/artifact_service/artifact_repository.py:205-217 | each page's total is the number of artifacts on it and on all pages after it |
| GracefulShutdown.Manager.WaitForDrain | core/graceful_shutdown.py:133-152 | the drain ends, at the first look that finds no request or the grace period spent, and says which |
| GracefulShutdown.Manager.RunCleanups | core/graceful_shutdown.py:154-174 | every cleanup is called once in order of registration, however the others ended |
| GracefulShutdown.Manager.Admit | core/graceful_shutdown.py:240-259 | health paths pass uncounted, others are counted or refused once shutting down |
| GracefulShutdown.StepsAre | core/graceful_shutdown.py:122-152 | what each step does to the counter and the stage: the drain goes on to the cleanups exactly when no request is counted or the grace period is spent |
| GracefulShutdown.AlwaysCounted | core/graceful_shutdown.py:122-152 | in every run whose handler installations find no request in flight, the counter is the number of requests being served |
| GracefulShutdown.CleanupsRunAlone | core/graceful_shutdown.py:133-174 | once the drain saw zero, no tracked request is served from then on, so none overlaps a cleanup |
| GracefulShutdown.ReinstallForgets | core/graceful_shutdown.py:176-185 | a drain after a reinstallation ends at once, rightly so exactly if nothing was in flight |

## Left out

- Tokens and ids are taken to be fresh (a counter names the tokens); their randomness is not modelled.
- The guard protocol follows one key; `LockSpec.OtherKeysUntouched` is why that is enough. The result cache entry of that key is written by guard clients only.
- The bodies of handlers are steps `SetResult`, `Extend`, `Return` and `Raise` in any order; a crash is a client that never moves again; a cancelled handler is one that raised. Bodies that run under an outcome without a token (`is_cached`, or `on_contended="return"`) are not counted as starts, because they hold no lock.
- Methods of the classes run without interference between their awaits; interleaving is the subject of the state machines.
- Building the client of the guard's lock and cache, and their latches, appear in the guard protocol only as commands that are lost.
- `DistributedLock.ping` mirrors the cache's `ping` (the step `HealthPing` of `ProbeProtocol`) and has no method of its own.
- A coroutine that finds the latch healed by another while it waits for its own ping is a matter of `ProbeProtocol`; the methods probe undisturbed.
- `loads` and `dumps` are parameters; a payload that reads back as None counts as a miss, as the callers treat it.
- SCAN is modelled by its documented guarantee (every key present throughout a full scan is yielded, possibly twice, and only matching keys); glob matching is a parameter. In `OverlapCoherence` a scan that completes confirms the keys updated before it started; callers of the quiet form do not learn that it did.
- `build_redis_cache`, `build_distributed_lock`, URL resolution from the environment, metrics, logging, event publishing and `close` are left out: they do not touch the state modelled here.
- Rounding of float clocks and `wait_poll_interval` is left out; the rate limiter's window is one fixed length per key, and Redis expires keys by the callers' clock.
- Switching by `get_ttl` and `get_count` of the latched backend is the `Peek` step; `RateLimitMiddleware._get_config`, its headers and the key function are left out.
- `shutdown_with_timeout`, the thread that forces the exit, Consul deregistration and the 5-second limit on one cleanup (a way a cleanup can end) are left out of the drain.
- Creating the history table, the file-name filter, `show_status` and the order of several services are left out of the migration model; one runner is at work at a time; checksums are nonempty and names distinct, as SHA-256 and a directory listing give them.
- The model call of `runtime_invoke`, token counts, `Retry-After` until midnight and the 404 and empty-prompt checks before the quota are left out.
- `publish_artifact` is the statement `InsertShare` without its validation of the pin; `remix_artifact`, view counts, titles and permission checks other than the owner's are left out; a failed read of versions shows as a refused read.
- Artifacts.SequentialVersionsInOrder: covers creations without an explicit number, as the property is about runs that never pass one.
- `last_used_at` and failed grant reads (which prompt) are left out; NOW() of the server is the model's clock.
- The paged table does not change while it is walked; the LIKE condition is a parameter, and ORDER BY among equal times is any fixed order.
- `_McpSession` and the MCP, Postgres, NATS and HTTP transports are not part of this model.
