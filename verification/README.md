# Headwater: verified models of its stateful cores

Headwater is a scraping and monitoring service. Most of it is plumbing around browsers, Redis and
HTTP; inside sit a few small stateful cores that everything else leans on. This project models those
cores in Dafny and proves what they are for: statements over every run, every interleaving, every page
or every value, not over single calls.

| module | what it models |
|---|---|
| `SlidingWindow` | what counting in fixed windows guarantees about sliding intervals, shared by both limiters |
| `RedisLimiter` | the shared limiter as a protocol of any number of workers over one Redis key, with late EXPIREs and crashes |
| `MemoryLimiter` | the process-local limiter and its purge |
| `OrderedDict`, `RecordStore`, `StoreHistory` | the owner-scoped store of expiring records over a string-keyed dictionary, and what its readers find after any history |
| `MonitorLog`, `Monitors`, `Scheduler` | place monitors: the change log, the owner index, the scheduler's tick |
| `Webhooks` | the two delivery loops and the health record |
| `TieredCache` | memory over Redis, for a fleet of workers |
| `CacheCodec` | the typed envelopes of the cache |
| `AuthSnapshot` | the double-checked refresh of the accepted keys |
| `BrowserPermits` | the semaphores that bound live browsers |
| `PlaceSearch` | the search loops over an adversarial page, and the scrape job |
| `TrieShape`, `SearchTrie`, `TrieHistory`, `SuggestionIndex` | the trie on the heap, the map it refines, its searches after any history, the index over it |
| `NestedDict`, `NestedLookup` | flattening nested dictionaries and back, and what either does to any dictionary |
| `Prelude` | Option, Result and a few sequence functions |

Conventions. Instants and durations are `real` seconds and are parameters of the operations; a run has a
non-decreasing clock, and a scheduler's tick reads it anew for every owner and every check. Protocols (`RedisLimiter`, `AuthSnapshot`, `BrowserPermits`, the fleet in
`TieredCache`) are step machines: `Step` is one atomic step, `After(run)` the state after any sequence of
steps, and the theorems quantify over all sequences. Objects that the program updates in place are
classes whose methods are tied to functions of the old state; the theorems are about those functions.
Where an operation is described by a function of the old state, laws beside it say what that function does in
terms of the operation's own arguments or of the events of a run, with the program's constants spelled out.
Exceptions and error returns are `Result`, `Option` or explicit outcomes. I/O is an oracle: a page
(`PlaceSearch.Page`), a receiver of webhooks (`Webhooks.Receiver`), a place lookup (`Monitors.Lookup`).

What came out of it, where code and documentation part or a bound needed care:

- Both limiters allow at most `2 * limit - 1` requests in a closed interval of one window, one less than the
  two full windows one would expect, because the request that opens a window cannot lie in the same interval
  as all of the next window. The bound is met for every limit and every window, so it cannot be improved. A
  timeframe of zero seconds is a single instant, and there the limit itself is the bound.
- Clients are told when the window ends: the shared limiter's reset names the key's deadline to within half a
  second.
- Purging is invisible exactly when its timeframe is at least the limiter's.
- A monitor checked every 168 hours, the longest interval on offer, falls due at the very instant its record
  expires: only a tick at that instant still finds it.
- Closing a scraper under its own launch, when the launch then fails, gives the permit back twice. Permits are
  conserved exactly in the runs where this does not happen.
- An empty search result is labelled, except in two families of pages: when a maximum of zero or less was asked
  for, and when there is no feed and the place links, counted once by the search and again by the extraction,
  have vanished between the two counts. There an unlabelled empty list is answered, and the job is stored as
  completed. The exact condition is `PlaceSearch.Silent`.
- A cached value is served for its lifetime by every worker; a stale one for less than five minutes, and for less
  than one minute beyond its own lifetime. A lifetime of zero never ends in the shared level.
- Two owners mix, in the scan and in colliding keys, exactly when one of them followed by a colon begins the
  other followed by a colon. The digests used as owners have no colon.
- Flattening is reversible exactly when the separator is not in the key of any leaf, a separator put after the
  key of a dictionary is the first one there, no nested dictionary is empty and the top-level empty key holds no
  dictionary. For a separator of one character the two conditions on keys say the same.
- Decoding what was encoded gives the value back exactly when no plain dictionary inside is taken for an
  envelope and nothing inside is a tuple, a dataclass or an enumeration member, which come back as lists,
  dictionaries and values; a dictionary with a list as its tag comes back as the raw text of the entry.
- A search in a category sees the first `2 * limit` matches only, and may miss suggestions beyond them. The
  category is written into the caller's metadata dictionary, so two suggestions added with one dictionary share
  the category that was filed last.

## Model

| member | source | states |
|---|---|---|
| SlidingWindow.RankIsCount | app/core/rate_limiter.py:622-626 | in any log the limiters can produce, the rank of a request is the number of requests its window has counted by then |
| SlidingWindow.WindowCap | app/core/rate_limiter.py:579-593 | one window allows at most `cap` requests, and at most `cap - rank + 1` of rank `rank` or more |
| SlidingWindow.SlidingBound | app/core/rate_limiter.py:557-631 | windows that open more than a width apart and count in order never allow more than `2 * cap - 1` requests in a closed interval of that width |
| SlidingWindow.InstantBound | app/core/rate_limiter.py:595-631 | windows that open apart share no instant, so at a single instant at most `cap` requests are allowed |
| RedisLimiter.StepKeeps | app/core/redis_manager.py:336-375 | every step of every worker (INCR with TTL, late or lost EXPIRE, error reply, crash, clock) keeps the protocol's invariant |
| RedisLimiter.LimitPerLife | app/core/redis_manager.py:355-372 | after any interleaving, at most `limit` requests have been allowed in one life of the key |
| RedisLimiter.AnswersFollowRank | app/core/redis_manager.py:361-372 | an answered request is allowed if and only if its rank in the life of the key is within the limit |
| RedisLimiter.CountIsAnswered | app/core/redis_manager.py:353-370 | in every reachable state a request on a key with a deadline adds one to the count and is answered at once, allowed within the limit, with a reset that is never negative and names the deadline to within half a second; on a key without deadline, and on a new life, it waits |
| RedisLimiter.ExpireIsAnswered | app/core/redis_manager.py:362-370 | the acknowledged EXPIRE gives a live key one whole window from then on, and its sender answers with exactly the window |
| RedisLimiter.LostCountStillCounts | app/core/redis_manager.py:353-375 | a request whose reply was lost counts and is never answered |
| RedisLimiter.LostExpireIsUnavailable | app/core/redis_manager.py:362-375 | a request whose EXPIRE was lost is undecided, the key is as before, and the command may still be carried out |
| RedisLimiter.StrayExtends | app/core/redis_manager.py:363-365 | an EXPIRE that nobody waits for any more extends a live key all the same |
| RedisLimiter.TimeAndCrashesLeaveTheKey | app/core/redis_manager.py:353-370 | time and stopping workers leave the key and every outcome alone |
| RedisLimiter.AnswersStand | app/core/redis_manager.py:336-375 | whatever happens next, no request and no outcome once given changes |
| RedisLimiter.CreationsAreSpaced | app/core/redis_manager.py:364-367 | successive creations of the key are more than a window apart, whatever EXPIREs were late or lost |
| RedisLimiter.DeadlineNeverEarlier | app/core/redis_manager.py:364-367 | no step removes the deadline of a live key or moves it to an earlier instant |
| RedisLimiter.AnswerMeansDeadline | app/core/redis_manager.py:364-372 | once a request of the newest life has been answered the key lapses within a window: no answered client is locked out by a key without expiry |
| RedisLimiter.TrafficDoesNotExtend | app/core/redis_manager.py:364-367 | once no EXPIRE is outstanding, no traffic, error or crash moves the deadline until the key has lapsed: a client that waits out its window gets a new one |
| RedisLimiter.RedisSlidingBound | app/core/rate_limiter.py:557-593 | for every interleaving, any closed interval of one window holds at most `2 * limit - 1` allowed requests |
| RedisLimiter.RedisBoundIsMet | app/core/redis_manager.py:336-375 | for every limit and every window some run reaches the bound |
| MemoryLimiter.Limiter.Check | app/core/rate_limiter.py:595-631 | a request opens a new window of count one or adds one to the open window; the verdict and the count are those of that window, and no other key changes |
| MemoryLimiter.Limiter.Purge | app/core/rate_limiter.py:888-913 | exactly the lapsed entries are deleted, and their number is returned |
| MemoryLimiter.KeysAreIndependent | app/core/rate_limiter.py:595-631 | over any run, the decisions on a key are those of a limiter that serves this key alone and is never purged |
| MemoryLimiter.DecisionsFollowInstants | app/core/rate_limiter.py:595-631 | what a key is told follows from the instants of its own requests: each is counted from the one that opened its window, the first always passes, the others up to the limit |
| MemoryLimiter.PurgingIsInvisible | app/core/rate_limiter.py:616-626 | purges with at least the limiter's timeframe, anywhere in a run, change no decision and no reported count |
| MemoryLimiter.PurgeInvisibleIff | app/core/rate_limiter.py:906-909 | purging with a given timeframe is invisible in every run if and only if that timeframe is at least the limiter's |
| MemoryLimiter.HastyPurgeForgets | app/core/rate_limiter.py:906-909 | a shorter purge timeframe forgets an open window: the run in which it lets a second request count as a first |
| MemoryLimiter.MemorySlidingBound | app/core/rate_limiter.py:595-631 | at most `2 * max(1, limit) - 1` requests on a key pass in any closed interval of one timeframe, and `max(1, limit)` when the timeframe is zero, with other keys and purges in between |
| MemoryLimiter.MemoryBoundIsMet | app/core/rate_limiter.py:619-626 | for every limit and every timeframe a run with a monotone clock and patient purges reaches the bound |
| RecordStore.ScanIsScoped | app/services/record_store.py:172-176 | for colon-free owners the prefix scan of one owner meets a key if and only if it belongs to that owner, whatever the ids are |
| RecordStore.KeysAreInjective | app/services/record_store.py:172-173 | keys of colon-free owners coincide only for the same owner and id |
| RecordStore.KeyIsSpelled | app/services/record_store.py:172-173 | how a key is spelled |
| RecordStore.OwnersMixIff | app/services/record_store.py:172-176 | for any two owners, some key of one is met by the scan of the other, and some keys of the two collide, if and only if one followed by a colon begins the other followed by a colon |
| RecordStore.ColonsMixOwners | app/services/record_store.py:172-176 | the two cases of that condition: "a" mixes with "a:b", and "a:b" does not mix with "c" |
| RecordStore.Store.Get | app/services/record_store.py:225-233 | the live record under the key, and an expired one is dropped |
| RecordStore.Store.Put | app/services/record_store.py:180-199 | the record written keeps the creation time of the live record it replaces, and the dictionary gains exactly this entry with the store's lifetime |
| RecordStore.Store.Delete | app/services/record_store.py:235-242 | the entry is removed, and the result says whether there was one, expired or not |
| RecordStore.Store.ListForOwner | app/services/record_store.py:286-297 | everything expired is swept, and the page, offset and limit as Python slices, is cut from the filtered records of the owner in the order asked for |
| RecordStore.GetRefines | app/services/record_store.py:225-233 | reading the dictionary is reading a map from (owner, id) to expiring records |
| RecordStore.PutRefines | app/services/record_store.py:180-199 | writing the dictionary is writing that one cell of the map; `created_at` survives while the old record lives |
| RecordStore.DeleteRefines | app/services/record_store.py:235-242 | deleting removes that one cell and touches no other owner or id |
| RecordStore.SweepRefines | app/services/record_store.py:288-290 | a sweep removes the expired cells and nothing else |
| RecordStore.ListAgreesWithGet | app/services/record_store.py:286-297 | in any order, a record is listed if and only if it is the owner's, passes the filter and is what `get` returns at that instant |
| RecordStore.SortingSorts | app/services/record_store.py:296 | sorting orders by the given key, ascending or descending, and equal keys keep their stored order |
| RecordStore.ListingsFallOrRise | app/services/record_store.py:296 | sort keys fall or rise as asked, and by default the newest records come first |
| RecordStore.PageIsASlice | app/services/record_store.py:297 | a page is the Python slice: a bound beyond an end is that end, a negative one counts from the last item |
| RecordStore.SortingKeeps | app/services/record_store.py:296 | sorting neither loses nor duplicates a record |
| RecordStore.ListedUnique | app/services/record_store.py:286-297 | no id appears twice in a listing |
| RecordStore.PagesConcatenate | app/services/record_store.py:297 | consecutive pages, one after the other, are the beginning of the whole sorted list |
| StoreHistory.ReadsWhatWasWritten | app/services/record_store.py:180-242 | after any history of writes, deletions, reads and listings a reader finds exactly the last write of the record, for one lifetime, unless it was deleted since, created when the first of the writes that each met it alive was made |
| StoreHistory.FoundIff | app/services/record_store.py:180-242 | once written, and not written or deleted since, a record is found if and only if its lifetime lasts, with the data and the instant of that write |
| StoreHistory.ListsWhatWasWritten | app/services/record_store.py:244-297 | after any history a listing shows exactly those records of the owner that pass the filter and that a reader would find |
| MonitorLog.SnapshotIsLastSeen | app/services/google_maps_monitors.py:872-880 | over any run of checks the stored snapshot holds, for every tracked field, the most recent value any scrape saw, and nothing else |
| MonitorLog.LogIsWhatWasSeen | app/services/google_maps_monitors.py:883-901 | field by field, the log records exactly the changes the scrapes show |
| MonitorLog.LoggedChangesChain | app/services/google_maps_monitors.py:955-985 | successive recorded changes of a field chain, each from the value the previous one ended with, and the last one ends in the stored snapshot |
| MonitorLog.OneBaseline | app/services/google_maps_monitors.py:960-985 | the first entry of the log is the only baseline and the only entry without changes |
| MonitorLog.HistoryIsNewest | app/services/google_maps_monitors.py:960-991 | the stored history is the newest 200 entries of the full log |
| MonitorLog.HistoryLength | app/services/google_maps_monitors.py:940-991 | after the first success the history holds `min(200, 1 + change_count)` entries, every check is counted, and the record carries the time of the last check and an error exactly when it failed |
| MonitorLog.FreshIsBorn | app/services/google_maps_monitors.py:358-376 | a new monitor has the interval asked for but at least one hour, the fields asked for or the nine defaults, is due one interval from now, active, and has seen nothing |
| MonitorLog.CheckRewrites | app/services/google_maps_monitors.py:921-991 | one check counts and dates itself, is due again one interval later and keeps interval, fields and status; a failed one keeps all that was seen and leaves the scrape's message or the standard one, a successful one has every field as seen now or else as known before |
| MonitorLog.DiffIsTheChanges | app/services/google_maps_monitors.py:883-901 | the changes of a check are the fields known before with one value and seen now with another |
| Monitors.Service.RememberOwner | app/services/google_maps_monitors.py:271-273 | the owner's index entry is written anew with a full lifetime |
| Monitors.Service.KnownOwners | app/services/google_maps_monitors.py:276-279 | every owner returned is indexed and live, none twice, and all are returned when there are at most 10,000 |
| Monitors.IndexedOwnersIff | app/services/google_maps_monitors.py:271-279 | an owner is indexed if and only if the synthetic owner holds a live entry of that name |
| Monitors.Service.ForgetOwnerIfEmpty | app/services/google_maps_monitors.py:282-286 | the index entry goes if and only if the owner has no live monitor left |
| Monitors.Service.CreateMonitor | app/services/google_maps_monitors.py:311-386 | a monitor without target, or else one with a refused webhook target, is refused with that error and changes nothing; otherwise the record has the interval and fields asked for, is due one interval from now, lives for a week like its owner's index entry, and no other monitor changes |
| Monitors.Service.CheckMonitor | app/services/google_maps_monitors.py:904-1015 | a live monitor is rewritten as its scrape demands, on failure too, keeps its creation time, lives for a week from now like its owner's index entry, and what is reported are its changes or its error; a missing one is reported and nothing is written |
| Monitors.Service.DeleteMonitor | app/services/google_maps_monitors.py:439-447 | succeeds if and only if the record was stored, and removes the owner from the index with the last live monitor |
| Monitors.Service.ListDue | app/services/google_maps_monitors.py:1030-1046 | the monitors listed are live, due at the cutoff and distinct, at most 500, and all of them when there are no more |
| Monitors.DueOfIff | app/services/google_maps_monitors.py:1030-1041 | a monitor is due if and only if it is alive, active and its next check is not after the cutoff |
| Monitors.RunIsSafe | app/services/google_maps_monitors.py:363-382 | creations, checks and deletions in any order keep the index covering the monitors |
| Monitors.IndexCoversMonitors | app/services/google_maps_monitors.py:271-286 | after any run every live monitor's owner has an index entry that expires no earlier than the monitor |
| Scheduler.CheckOwner | app/services/google_maps_monitors.py:1030-1055 | one owner's due monitors are checked, each once and at an instant of its own unless it has expired by then; nothing else changes but the index |
| Scheduler.RunDueChecks | app/services/google_maps_monitors.py:1018-1055 | a tick over a running clock checks only monitors that were due at its cutoff and alive at their turn, leaves all others as they were, keeps the index covering, and within the listing limits passes over no due monitor that outlives the tick |
| Scheduler.NoneLeftDue | app/services/google_maps_monitors.py:1018-1055 | within the limits a tick leaves no live monitor due at its cutoff |
| Scheduler.RunWithTicksIsSafe | app/services/google_maps_monitors.py:1018-1055 | any such run keeps the index covering the monitors |
| Scheduler.NoOwnerIsLost | app/services/google_maps_monitors.py:271-286 | after any run of creations, checks, deletions and ticks every live monitor's owner has an index entry that expires no earlier than the monitor |
| Scheduler.TickIsTickTable | app/services/google_maps_monitors.py:1018-1055 | within the limits the monitors alive at the end of a tick, and their state, are a function of the monitors at its start |
| Scheduler.ServiceFollowsTables | app/services/google_maps_monitors.py:1018-1055 | through any schedule of ticks the live monitors of the service are those of the table function |
| Scheduler.PromptMonitorsSurvive | app/services/google_maps_monitors.py:1018-1055 | in the service: under ticks that reach a due monitor within a delay, a monitor whose interval and delay fit the lifetime is there after every schedule |
| Scheduler.SurvivesIff | app/services/record_store.py:49 | a monitor outlives every schedule that comes to it within a given delay of its falling due if and only if interval plus delay are at most the store's lifetime |
| Scheduler.WeeklyMonitorNeedsTheExactInstant | app/api/google_maps/schemas.py:358 | a monitor with the 168-hour maximum is found due at one single instant, and is gone afterwards |
| Webhooks.DeliverWebhook | app/services/google_maps_monitors.py:539-640 | attempts go on until a 2xx status, a 4xx other than 408 and 429, a rejected target or exhaustion; delivered, status, error and every pause (1, 2, 4, 8, 16, then 30 seconds) follow from the receiver |
| Webhooks.DeliverInline | app/services/google_maps_monitors.py:787-845 | the inline loop meets the same description with four attempts |
| Webhooks.DecideAlike | app/services/google_maps_monitors.py:815-836 | the description determines the delivery, so the signed and the inline loop decide alike at four attempts |
| Webhooks.BackoffIs | app/services/google_maps_monitors.py:599-624 | the pause after attempt n is 1, 2, 4, 8, 16 and from the sixth on 30 seconds |
| Webhooks.BackoffIsBounded | app/services/google_maps_monitors.py:599-624 | pauses are one fewer than attempts and sum to at most min(2^(attempts-1) - 1, 30 * (attempts-1)) seconds |
| Webhooks.DefaultBackoff | app/services/google_maps_monitors.py:599-624 | with the default four attempts never more than seven seconds |
| Webhooks.WebhookRecord.RecordOutcome | app/services/google_maps_monitors.py:720-734 | one delivery result moves every counter of the health record and dates it |
| Webhooks.HealthIsTruthful | app/services/google_maps_monitors.py:708-734 | over any run deliveries are successes plus failures, the streak is the trailing failures, the webhook is failing if and only if the streak is at least ten, and time, status and error are those of the last delivery |
| TieredCache.MemoryCache.Get | app/core/cache_backends.py:137-154 | the value while its expiry lies ahead; an expired entry is removed |
| TieredCache.MemoryCache.Clear | app/core/cache_backends.py:175-190 | exactly the keys with the prefix, or all of them, are removed and counted |
| TieredCache.MemoryCache.CleanupExpired | app/core/cache_backends.py:222-237 | exactly the expired entries are removed and counted |
| TieredCache.RedisCache.Set | app/core/cache_backends.py:304-319 | a zero lifetime stores without expiry, a positive one for all of it, a negative one is refused |
| TieredCache.Tiered.Get | app/core/cache_backends.py:422-437 | memory first; a value found only in Redis is copied to memory for a minute |
| TieredCache.Tiered.Set | app/core/cache_backends.py:439-449 | both levels are written, memory for at most five minutes |
| TieredCache.Tiered.Delete | app/core/cache_backends.py:451-457 | both levels lose the key, and the result says whether either had it |
| TieredCache.RunIsSourced | app/core/cache_backends.py:422-457 | for any number of workers, every unexpired memory copy was taken from what Redis held at some earlier instant |
| TieredCache.BoundedStaleness | app/core/cache_backends.py:422-457 | a value any worker reads was current in Redis less than 300 seconds ago, by a write that nothing had undone by then, and that write's own lifetime, if it has one, ended less than 60 seconds ago |
| TieredCache.RedisHoldsIff | app/core/redis_manager.py:164-189 | after any run Redis holds a value if and only if the event that touched the key last wrote that value and its lifetime lasts |
| TieredCache.ServedWhileItLasts | app/core/cache_backends.py:422-449 | while the lifetime of the last write lasts every worker finds a value, and every worker without an unexpired copy of its own finds the one written |
| TieredCache.NothingElseIsServed | app/core/cache_backends.py:422-449 | a worker without a copy finds nothing but the value of such a write |
| TieredCache.OwnWriteIsReadBack | app/core/cache_backends.py:439-449 | a worker reads its own write back for its lifetime, at most 300 seconds, whatever the others do |
| TieredCache.PromotionServesAMinute | app/core/cache_backends.py:422-437 | a value read from Redis is kept for exactly 60 seconds and served from memory |
| TieredCache.RemovedStaysAway | app/core/cache_backends.py:451-457 | what a worker deletes or forgets is gone from its memory until it reads or writes the key again |
| TieredCache.ZeroLifetimeNeverEnds | app/core/redis_manager.py:164-189 | a value written with lifetime zero is served at every later instant |
| AuthSnapshot.BuildKeys | app/core/auth.py:71-95 | a key is accepted if and only if it is not empty, has no white space at either end, and some key of either setting is that key with white space around it |
| AuthSnapshot.KeysAreClean | app/core/auth.py:86-90 | no accepted key is empty or has white space at either end |
| AuthSnapshot.StripIsCore | app/core/auth.py:84-90 | stripping a key gives that key without the white space around it, and nothing else |
| AuthSnapshot.SpacesAre | app/core/auth.py:84-90 | white space is the 29 characters that Python strips |
| AuthSnapshot.SnapshotIsFresh | app/core/auth.py:98-125 | for any number of threads and reloads, a returned snapshot is of a version no older than the one current when the call began, and its keys are that version's keys |
| AuthSnapshot.VersionsNeverGoBack | app/core/auth.py:106-125 | published versions never go backwards |
| AuthSnapshot.LockExcludes | app/core/auth.py:119-125 | at most one thread is inside the refresh |
| AuthSnapshot.DecisionUsesOneVersion | app/core/auth.py:199-231 | a request decided on a snapshot is accepted if and only if its header is a configured key, stripped, of that one version and that version requires keys |
| AuthSnapshot.DecidedBySettings | app/core/auth.py:199-231 | which of the five answers is given follows from the settings of that version and the header |
| AuthSnapshot.CallReturnsCurrentSnapshot | app/core/auth.py:112-117 | a call that finds the snapshot up to date returns it at once |
| AuthSnapshot.CallRefreshes | app/core/auth.py:112-125 | a call that finds it out of date, with the lock free, returns and publishes the keys of the newest settings and lets go of the lock |
| BrowserPermits.StepKeeps | app/services/google_maps/scraper.py:82-175 | entering, acquiring, cancelling, launching, failing, closing and reconfiguring keep every generation balanced |
| BrowserPermits.PermitsAreConserved | app/services/google_maps/scraper.py:104-126 | in every run and generation, permits left plus scrapers holding one are the cap plus the permits given back twice |
| BrowserPermits.AcquiresIff | app/services/google_maps/scraper.py:104-106 | in every run a waiting scraper gets on if and only if fewer scrapers hold permits of its generation than the cap and the permits given back twice; it then holds one permit more |
| BrowserPermits.EntersIff | app/services/google_maps/scraper.py:82-105 | an idle scraper without browser and permit, and no other, begins to wait, for the semaphore its event loop uses or a new one with the present cap |
| BrowserPermits.LaunchEnds | app/services/google_maps/scraper.py:107-116 | a launch ends with a browser, or by giving back the permit it was begun with |
| BrowserPermits.ReleaseGivesBackWhatIsHeld | app/services/google_maps/scraper.py:118-122 | a close gives back the permit held, once, and only that one |
| BrowserPermits.CancelAndShutdownMoveNoPermit | app/services/google_maps/scraper.py:104-126 | a cancelled wait and a browser that has shut down move no permit |
| BrowserPermits.ConfiguringReplacesTheTable | app/services/google_maps/scraper_limits.py:77-97 | a new cap of at least one holds at once for every event loop, a lower one is refused |
| BrowserPermits.ExactlyConservedIff | app/services/google_maps/scraper.py:104-126 | permits left plus holders equal the cap in every generation if and only if no launch failed after its permit had been given back by a close |
| BrowserPermits.ClosingDuringLaunchMintsAPermit | app/services/google_maps/scraper.py:109-126 | the run in which a cap of one ends with two permits |
| BrowserPermits.NewcomersGetTheNewCap | app/services/google_maps/scraper_limits.py:77-103 | after any run every event loop's semaphore is its own and has the cap configured last |
| BrowserPermits.BrowsersStayWithinTheCap | app/services/google_maps/scraper_limits.py:77-106 | when every close waits for its browser and none interrupts its own launch, every browser is paid for by a permit and no generation has more browsers than its cap |
| PlaceSearch.Scraper.OpenPlace | app/services/google_maps/scraper.py:525-541 | one attempt is counted, its record or its missing fields are kept |
| PlaceSearch.Scraper.VisitCard | app/services/google_maps/scraper.py:501-550 | a card is opened if and only if its name is new and its link can be clicked |
| PlaceSearch.Scraper.JudgeEmptyLook | app/services/google_maps/scraper.py:464-488 | without cards and results, stray place links are a stale card selector and their absence an empty area that is labelled |
| PlaceSearch.Scraper.ExtractSearchResults | app/services/google_maps/scraper.py:446-566 | for every page: the places, counters, candidates and label are those of a walk over what the feed showed, cut by the limit, and a look that counts stray links but no cards is refused as stale |
| PlaceSearch.Scraper.ExtractFromPlaceLinks | app/services/google_maps/scraper.py:398-444 | as many links as the second count finds, up to the limit, are walked, all of them candidates |
| PlaceSearch.Scraper.AssertSelectorsFresh | app/services/google_maps/scraper.py:346-396 | passes if and only if emptiness is backed by a loaded page without candidates and some record has a core field; a refusal names the two containers, the fields missed or "title", or the seven core fields |
| PlaceSearch.Scraper.Search | app/services/google_maps/scraper.py:200-344 | the answer is determined for every page, success, error and missing fields included; the counters equal the results, a non-empty list holds a place that is not partial, the label is carried by exactly the empty answers that are not silent, and every list is explained by its layout: the walk over all cards of the looks taken, over the links there were, or the single place |
| PlaceSearch.FeedEndIff | app/services/google_maps/scraper.py:455-553 | how every feed ends, exactly: looks are taken, five of them or a quarter of the maximum, while places are wanting and each look passes and scrolls on; the first that does not decides whether the reading is finished, labelled, stale or raises |
| PlaceSearch.FewerOnlyAtTheEnd | app/services/google_maps/scraper.py:457-459 | fewer places than asked for are answered only if a look refused to scroll, the labelled blank look was met, or max(5, max_results // 4) looks were taken, which are never exceeded; the places are then all that those looks show |
| PlaceSearch.ShownInOrder | app/services/google_maps/scraper.py:459-500 | the looks show every counted card, look by look, in the order of the page |
| PlaceSearch.LimitedIsTake | app/services/google_maps/scraper.py:455-550 | stopping at the limit yields the first places of the walk over everything shown |
| PlaceSearch.EmptyLookIff | app/services/google_maps/scraper.py:455-488 | the feed ends labelled at a look if and only if all looks before it were fruitless and it counts neither cards nor stray links, and is refused as stale if and only if it counts stray links only |
| PlaceSearch.LabelledIff | app/services/google_maps/scraper.py:464-488 | of the outcomes that are believed, exactly the empty ones are labelled, but for a maximum of zero or less and for links that vanish between the two counts |
| PlaceSearch.EmptyAnswerIff | app/services/google_maps/scraper.py:200-344 | an empty list is answered if and only if the page loads and, with something asked for, the first look at the feed is blank or the links vanish, or, with nothing asked for, results are listed at all |
| PlaceSearch.PlacesAnswerIff | app/services/google_maps/scraper.py:200-396 | a list of places is answered if and only if nothing on the way raises, the page's layout explains that list, and some place on it has a core field |
| PlaceSearch.VanishedLinksAreSilent | app/services/google_maps/scraper.py:309-316 | three links counted and none left at the second count: an unlabelled empty list |
| PlaceSearch.AttemptsAreFirstSightings | app/services/google_maps/scraper.py:509-526 | the attempts counted are the first sightings of names with a working link, each name once |
| PlaceSearch.PlacesAreTheRecordsOpened | app/services/google_maps/scraper.py:525-541 | the places returned are the records of exactly those cards |
| PlaceSearch.MissesAreTheFieldsLacked | app/services/google_maps/scraper.py:525-541 | the missing fields recorded are those that the opened cards lacked |
| PlaceSearch.WidestIsTheMost | app/services/google_maps/scraper.py:492-499 | the candidates of a feed are the most cards any look has counted |
| PlaceSearch.RunScrapeJob | app/services/google_maps_scraper.py:117-184 | status, results and error of the job are determined; every stored job is honest: a completed one without results is labelled unless the page made it silent, a failed one names its error and whether the parser was stale; the scraper is closed in every case |
| TrieShape.InsertIsMapUpdate | app/core/search.py:48-73 | inserting refines an update of the map at the lower-cased word: newest casing, old metadata kept when none is given, empty word ignored |
| TrieShape.InsertKeepsLive | app/core/search.py:48-73 | inserting leaves no dead branch |
| TrieShape.NodesLeadToWords | app/core/search.py:88-98 | a node exists for a prefix if and only if it is empty or some stored key starts with it |
| TrieShape.KeysAreExtensions | app/core/search.py:199-217 | the recursive traversal from a node meets exactly the stored keys that extend its path |
| TrieShape.MatchesAreTheWords | app/core/search.py:100-138 | an unlimited prefix search meets exactly the matching keys, each once |
| TrieShape.EverythingVisited | app/core/search.py:165-178 | once the explicit stack is empty it has reported what the recursive traversal reports, up to order |
| SearchTrie.Trie.Insert | app/core/search.py:48-73 | the nodes on the heap are updated so that the map gains exactly this word and the size is the number of its keys |
| SearchTrie.Trie.Search | app/core/search.py:75-86 | membership of the lower-cased word in the map |
| SearchTrie.Trie.HasPrefix | app/core/search.py:88-98 | the empty prefix, or some key of the map starts with the lower-cased prefix |
| SearchTrie.Trie.FindNode | app/core/search.py:180-197 | the node at the path, if there is one |
| SearchTrie.Trie.Collect | app/core/search.py:199-237 | what both collectors append to a partly filled list under a limit, negative limits included |
| SearchTrie.Trie.FindAllWithPrefix | app/core/search.py:100-138 | a limited prefix search is the first `limit` items of the unlimited one |
| SearchTrie.Trie.GetAllWords | app/core/search.py:165-178 | the stack loop ends and reports every word of the map once: the recursive collector's words as a multiset |
| TrieHistory.HoldsWhatWasInserted | app/core/search.py:48-73 | after any run of insertions a key holds the casing stored last under it and the metadata given last, and nothing else is a key |
| TrieHistory.SearchOrder | app/core/search.py:199-237 | after any run of insertions every search meets a word before its extensions, and of two branches the one that an insertion reached first |
| SuggestionIndex.Index.AddSuggestion | app/core/search.py:261-281 | the category is written into the caller's dictionary, or into a new one when that is empty or absent; the suggestion is filed under it and stored with a reference to that dictionary |
| SuggestionIndex.Index.SearchInCategory | app/core/search.py:335-352 | a tracked category is answered from the first `2 * limit` matches, an untracked one with nothing |
| SuggestionIndex.RunKeepsTrack | app/core/search.py:261-281 | as long as callers leave the category key to the index, after any run of additions a category that is not tracked holds no suggestion |
| SuggestionIndex.FiledIff | app/core/search.py:261-281 | after any run the categories, and the keys filed under each, are those that additions have named |
| SuggestionIndex.SmuggledCategoryIsUntracked | app/core/search.py:272-281 | a category key in the caller's own metadata puts a suggestion into a category that is not tracked |
| SuggestionIndex.StaysInCategoryIff | app/core/search.py:272-281 | a suggestion not added again is still found in its category if and only if the last later addition that filed the same dictionary, if any, named the same category |
| SuggestionIndex.SharedDictionaryMoves | app/core/search.py:272-281 | two suggestions added with one dictionary under two categories: the first is found in the second category only, though it stays filed in its own |
| SuggestionIndex.AnswersAreSound | app/core/search.py:335-352 | every word answered belongs to a match of the category |
| SuggestionIndex.AnswerIsCompleteIff | app/core/search.py:350-352 | the answer is the first `limit` of all matching suggestions of the category if and only if enough of them lie among the first `2 * limit` matches, which holds whenever there are no more matches than that |
| SuggestionIndex.CrowdHidesASuggestion | app/core/search.py:350-352 | three matches and a limit of one: the only suggestion of the category is missed |
| NestedDict.FlattenDict | app/core/collection_utils.py:33-55 | the recursive loop computes the flat dictionary, later collisions overwriting earlier ones in place |
| NestedDict.UnflattenDict | app/core/collection_utils.py:58-87 | the loop writes every leaf at its split path, failing on a path through a leaf and on an empty separator |
| NestedDict.FlatFormListsTheLeaves | app/core/collection_utils.py:33-55 | no two leaves of a reversible dictionary collide, whatever the separator: the flat form lists every leaf under its own key, from which its path can be read back |
| NestedDict.UnflattenUndoesFlatten | app/core/collection_utils.py:58-87 | unflattening undoes flattening on every reversible dictionary, down to the order of items |
| NestedDict.RoundTripIff | app/core/collection_utils.py:33-87 | for every separator the round trip gives the dictionary back if and only if the separator is not in the key of a leaf, a separator after the key of a dictionary is the first one there, no nested dictionary is empty and the top-level empty key holds no dictionary |
| NestedDict.OneCharacterSeparator | app/core/collection_utils.py:33-87 | for a separator of one character, such as the default, both conditions on keys say that no key holds it |
| NestedDict.FreeKeysMayNotSurvive | app/core/collection_utils.py:33-87 | with the separator "::" a dictionary under the key "a:" is lost although no key holds the separator |
| NestedLookup.UnflattenIff | app/core/collection_utils.py:58-87 | unflattening any flat dictionary fails if and only if the parts of one key begin with all the parts of an earlier one; otherwise its leaves are the values at the paths of their keys, but for those that a later key has replaced a dictionary around |
| NestedLookup.EmptySeparatorIsRefused | app/core/collection_utils.py:71 | with an empty separator only the empty dictionary is unflattened |
| NestedLookup.JoinUndoesSplit | app/core/collection_utils.py:71 | splitting a key loses nothing |
| NestedLookup.FlattenKeepsTheLast | app/core/collection_utils.py:33-55 | flattening any dictionary, a key of the flat form holds the last leaf whose path joins to it, and there are no other keys |
| NestedLookup.LeavesAreFound | app/core/collection_utils.py:33-55 | the leaves so listed are those that can be looked up |
| CacheCodec.EncodesIff | app/core/cache_manager.py:75-126 | a value is refused if and only if something inside it is of an unsupported type or is bytes that are not UTF-8; tuples, dataclasses and enumeration members are encoded |
| CacheCodec.SetReturns | app/core/cache_manager.py:75-126 | a set of scalars, some of them envelopes themselves, comes back if and only if each of them does |
| CacheCodec.RoundTripIff | app/core/cache_manager.py:173-218 | deserialising the serialised value gives it back if and only if every duration survives its float, nothing inside is a tuple, a dataclass or an enumeration member, and no plain dictionary inside is taken for an envelope |
| CacheCodec.ComesBackFlattenedIff | app/core/cache_manager.py:75-218 | any value that can be cached comes back with tuples as lists, dataclasses as dictionaries and enumeration members as values, if and only if that form comes back unchanged |
| CacheCodec.HookKeepsIff | app/core/cache_manager.py:141-150 | which plain dictionaries are taken for envelopes, tag by tag |
| CacheCodec.SpelledInTheCache | app/core/cache_manager.py:98-117 | how every kind of scalar and sets are spelled in the cache |
| CacheCodec.SetsAreRebuiltFrom | app/core/cache_manager.py:136 | a set is rebuilt from the characters, bytes or keys of whatever can be iterated over |
| CacheCodec.LawfulExists | app/core/cache_manager.py:129-138 | the laws asked of the library functions can be met |
| CacheCodec.OrdinaryValuesSurvive | app/core/cache_manager.py:173-218 | JSON values, datetimes, dates, times, decimals, UUIDs, UTF-8 bytes and sets of such scalars always survive when no plain dictionary has the two envelope keys |
| CacheCodec.ListTagComesBackAsText | app/core/cache_manager.py:141-218 | a plain dictionary with the two keys and a list as tag comes back as the raw text of the entry |

## Left out

- Rate limiting around the two back ends: choosing one, failing open or closed, response headers.
- Redis evicting a limiter's key early, and windows shorter than a second.
- The record store on Redis; only its in-memory back end is modelled. Sort keys are numbers.
- SearchTrie.Trie.Collect: one method stands for both collectors, which differ only in what they append.
- SuggestionIndex.StaysInCategoryIff: callers write into their metadata dictionaries through the index only; what they do to them afterwards by themselves is not modelled.
- `find_containing` and `search_containing`, and the Unicode rules of `lower`, which is any function here.
- NestedDict.UnflattenDict: the nested dictionaries, which it has just created itself, are replaced rather than written in place; leaves are opaque, so a leaf that is itself a mutable mapping is not written into.
- `merge_dicts`, `deep_get` and `deep_set`.
- In the cache codec: pydantic models, enumerations whose members are strings or numbers themselves, non-string keys, floats that are not finite, and JSON as text rather than as trees.
- Cache statistics, `exists`, glob patterns other than a prefix, and the tiered cache while Redis is failing.
- Monitors and webhooks under concurrent operations on one record: create, check and delete are atomic here, and so is each check inside a tick, which reads and writes at one instant; a tick as a whole is not.
- Webhook registration, signing, target validation and redirects, and which webhooks a recorded change fires; the place history views.
- A place lookup that raises is an error reply carrying the exception's text, as the program turns it into one; a check that raises elsewhere inside a tick is not modelled.
- PlaceSearch.RunScrapeJob: closing the scraper returns here; in the program it may raise after the job has been stored.
- `CacheManager.get`, `set`, `delete` and `clear`, a second expiring dictionary like the one in `TieredCache`.
- Direct calls of `initialize_api_keys` outside the refresh.
- Which of several waiting scrapers gets the next permit; any of them may here.
- BrowserPermits.BrowsersStayWithinTheCap: a browser whose shutdown raised may outlive its permit, as the program accepts.
- Reading a place's details panel: only its outcome matters to the search loops.
- The lists of missing fields in a stale-parser error are sets here; the program sorts them.
- `cap_fanout`, the budget arithmetic, and settings parsing: nothing to prove beyond their bodies.
