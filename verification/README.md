# bluetape-py: verified model

A Dafny model of the stateful cores of the bluetape-py packages, with proofs of what
they keep over every run.

- **Local loading cache** (`CacheCore`, `CacheInvariants`, `CacheRefinement`,
  `CacheNumbering`, `CacheCounters`, `CacheState`, `Flights`, `SyncCache`, `TTLCache`,
  `AsyncCache`, `AsyncRuns`, `AsyncTTLCache`): the TTL/LRU state with its lazily cleaned expiry heap, and the
  synchronous and asynchronous fronts whose in-flight loads are coalesced, superseded,
  cleared or abandoned. Each section under the cache lock is one atomic step.
- **Redis leader lock** (`Decimal`, `LeaseRecord`, `LeaderServer`, `LeaderScripts`,
  `LeaderHandle`, `LeaderRuns`, `AcquireCalls`): the five scripts over the three keys
  refine an abstract server with a fencing counter; a client handle and an acquiring
  call run against it with late scripts and lost replies.
- **Redis load coordination** (`Utf8`, `Envelope`, `ResultCodec`, `Coordination`,
  `FlightLoop`, `CoordinatedFlights`): the claim, publish and reuse protocol over two expiring keys, the
  bounded claim and poll loops, and the binary result envelope.
- **JSON guards** (`JsonTree`, `JsonPreflight`, `JsonAcceptance`, `JsonScan`): the walk
  over possibly shared or cyclic values, and the depth scanner over text (strings as in
  section 7 of RFC 8259).
- **Circuit breaker** (`Circuit`), **identifiers** (`Ids`; UUIDv7 as in sections 5.7
  and 6.2 of RFC 9562) and the **JWT key repository and verified-token cache**
  (`JwtKeys`, `JwtVerify`).

Values the source updates in place are classes whose methods are proved against
functions on a state value; the theorems over whole runs are about those functions.

Where the code does not do what one might expect of it, the code is kept and the exact
condition is proved:

- `purge_expired` compares version numbers only, and `drop_unused_version` lets a key's
  numbers start again, so set, invalidate, set can remove a live entry early
  (`SetInvalidateSetLosesLiveData`). `RunExactIff` and `RunAgreesIff` say exactly in
  which runs it cannot, and `KeptVersionsRunSafe` gives a simpler sufficient condition.
  No run serves expired or overwritten data (`HitIsFresh`).
- In the asynchronous cache abandoning a flight bumps its key's version without looking
  at newer flights, so a newer, untouched load can be dropped
  (`AbandonBlocksNewerFlight`). `PublishedIffUndisturbed` gives the exact condition.
- A release that leaves a minimum lease time does not always cap the lease: a renewal
  sent earlier and executed later extends it for its full time
  (`LateRenewalOutlivesRelease`), and so does the release's own first script when it is
  executed after its repetition (`LateReleaseOutlivesRelease`). `ProlongedIff` says
  exactly which executed commands take a lease beyond a deadline, and `OutlivesIff` when
  a released handle's lease can still outlive its own: if and only if a renewal or
  release of its record asking for two or more milliseconds is still unexecuted.

Assumptions: owner and load tokens are unique; no one else writes the Redis keys; a
script sees one clock value; the clock of a Redis server does not run back (the local
cache's own clock may); one shared codec configuration; SHA-256 is injective on tokens;
loaders, codecs, compressors, signing and the clock are functions or parameters.

## Model

| member | source | states |
|---|---|---|
| CacheStateObject.CacheState.PurgeExpired | packages/bluetape-cache/src/bluetape/cache/_core.py:111-119 | pops due heap records until none is due; equals `Purge`, which removes an entry only through a record with its version, and counts it |
| CacheStateObject.CacheState.Get | packages/bluetape-cache/src/bluetape/cache/_core.py:121-130 | a miss or a hit that moves the key to the end; equals `Get` on the whole state |
| CacheStateObject.CacheState.Store | packages/bluetape-cache/src/bluetape/cache/_core.py:132-153 | purge, new version, overwrite, push, evict the oldest beyond `max_size`, rebuild a heap beyond twice that; equals `Store` and keeps the invariant |
| CacheStateObject.CacheState.RebuildExpiryHeap | packages/bluetape-cache/src/bluetape/cache/_core.py:155-161 | one record per entry in recency order, newly numbered |
| CacheStateObject.CacheState.Invalidate | packages/bluetape-cache/src/bluetape/cache/_core.py:163-177 | purge, remove, bump, drop an unused version; says whether a live entry was removed |
| CacheStateObject.CacheState.Clear | packages/bluetape-cache/src/bluetape/cache/_core.py:179-185 | empties entries and heap, keeps only the versions of owned keys |
| CacheStateObject.CacheState.Size | packages/bluetape-cache/src/bluetape/cache/_core.py:187-189 | the number of entries left by a purge |
| CacheStateObject.CacheState.DropUnusedVersion | packages/bluetape-cache/src/bluetape/cache/_core.py:107-109 | forgets a version only when neither an entry nor an owned load needs it |
| CacheStateObject.CacheState.BumpVersion | packages/bluetape-cache/src/bluetape/cache/_core.py:99-102 | the next version of a key, from one |
| CacheStateObject.CacheState.ClampTick | packages/bluetape-cache/src/bluetape/cache/_core.py:95-97 | the tick never runs back |
| CacheInvariants.PurgeKeeps | packages/bluetape-cache/src/bluetape/cache/_core.py:111-119 | a purge keeps the heap invariant, leaves only entries and records after `now`, and loses no owned key's version |
| CacheInvariants.StoreKeeps | packages/bluetape-cache/src/bluetape/cache/_core.py:132-153 | a store puts the new value under the version after the one its purge left, preserves every other surviving entry, and keeps the bounds |
| CacheInvariants.GetKeeps | packages/bluetape-cache/src/bluetape/cache/_core.py:121-130 | a hit returns a stored value whose deadline is still ahead |
| CacheInvariants.InvalidateKeeps | packages/bluetape-cache/src/bluetape/cache/_core.py:163-177 | the key is gone, the reply says whether a live entry was there, other entries survive |
| CacheInvariants.RebuildKeeps | packages/bluetape-cache/src/bluetape/cache/_core.py:155-161 | after a rebuild every entry has its own record, and the heap is as long as the cache |
| CacheInvariants.ApplyKeeps | packages/bluetape-cache/src/bluetape/cache/_core.py:95-189 | every operation keeps the invariant: ordered, uniquely numbered heap, bounded sizes, an exact record for every live entry |
| CacheInvariants.HitIsFresh | packages/bluetape-cache/src/bluetape/cache/_core.py:95-185 | in every run, with any owned keys and any clock, a hit is the last store of its key and is before its deadline |
| CacheInvariants.RunBounded | packages/bluetape-cache/src/bluetape/cache/_core.py:132-161 | in every run: entries at most `max_size`, heap at most twice that, heap numbers distinct |
| CacheRefinement.PurgeRemoves | packages/bluetape-cache/src/bluetape/cache/_core.py:111-119 | a purge removes exactly the keys with a due record carrying their entry's version |
| CacheRefinement.PurgeExactIff | packages/bluetape-cache/src/bluetape/cache/_core.py:111-119 | a purge removes exactly the expired entries if and only if no due record carries the version of a live entry |
| CacheRefinement.AlwaysExactIff | packages/bluetape-cache/src/bluetape/cache/_core.py:111-119 | purges are exact at every time if and only if no record with an entry's version is due before it |
| CacheRefinement.StoreNoAliasIff | packages/bluetape-cache/src/bluetape/cache/_core.py:99-153 | a store creates no such record if and only if it is safe: no earlier heap record has the number it assigns, or it rebuilds the heap |
| CacheRefinement.StoreRefines | packages/bluetape-cache/src/bluetape/cache/_core.py:132-161 | without such records a store is the plain TTL map's store with least-recently-used eviction |
| CacheRefinement.GetRefines | packages/bluetape-cache/src/bluetape/cache/_core.py:121-130 | the same for `get`, recency order included |
| CacheRefinement.InvalidateRefines | packages/bluetape-cache/src/bluetape/cache/_core.py:163-177 | the same for `invalidate` |
| CacheRefinement.SafeRunRefines | packages/bluetape-cache/src/bluetape/cache/_core.py:95-189 | a run of safe stores leaves exactly the plain cache, rebuilds included |
| CacheRefinement.RunExactIff | packages/bluetape-cache/src/bluetape/cache/_core.py:95-189 | from every prefix of a run a purge at any time would be exact, if and only if every store of the run was safe |
| CacheRefinement.RunAgreesIff | packages/bluetape-cache/src/bluetape/cache/_core.py:95-189 | the cache is the plain one after every prefix of a run and a purge at any time, if and only if every store of the run was safe |
| CacheRefinement.SetInvalidateSetLosesLiveData | packages/bluetape-cache/src/bluetape/cache/_core.py:107-119 | set, invalidate, set: the first record removes the second value before its deadline |
| CacheNumbering.CountableRunSafe | packages/bluetape-cache/src/bluetape/cache/_core.py:99-117 | if a key without a version gets one only while the heap has no record of it, its heap records have distinct versions and every store is safe |
| CacheCounters.CallCounts | packages/bluetape-cache/src/bluetape/cache/_core.py:95-189 | every call counts a hit, a miss, an expiration, an eviction or an invalidation exactly when that happens, and entries kept plus entries counted out change only by what it adds |
| CacheCounters.EntriesConserved | packages/bluetape-cache/src/bluetape/cache/_core.py:111-185 | in every run the entries present and those counted as expired, evicted or invalidated are together all that was added |
| CacheCounters.EpochCountsClears | packages/bluetape-cache/src/bluetape/cache/_core.py:179-185 | in every run the clear epoch is the number of clears |
| CacheCounters.BeginLoadCounts | packages/bluetape-cache/src/bluetape/cache/_sync.py:114-140 | `get_or_load` counts a hit, or a miss and one of: a coalesced waiter, a rejection, a load |
| CacheCounters.SettleCounts | packages/bluetape-cache/src/bluetape/cache/_sync.py:181-218 | the end of a load counts a failure exactly if its loader failed |
| CacheCounters.RunCounts | packages/bluetape-cache/src/bluetape/cache/_sync.py:69-218 | in every interleaving the hit, miss, waiter, rejection, load and failure counters are exactly what callers were told |
| CacheCounters.AsyncBeginLoadCounts | packages/bluetape-cache/src/bluetape/cache/_async.py:139-176 | the asynchronous `get_or_load` counts the same way; a task that cannot be created is neither a load nor a failure |
| CacheNumbering.KeptVersionsRunSafe | packages/bluetape-cache/src/bluetape/cache/_core.py:107-117 | so it is in runs where no version is dropped while the heap holds a record of its key, and there the cache is the plain one |
| TTLCacheObject.TTLCache.Get | packages/bluetape-cache/src/bluetape/cache/_sync.py:69-71 | equals `Read` on the cache with its flight tables |
| TTLCacheObject.TTLCache.Set | packages/bluetape-cache/src/bluetape/cache/_sync.py:73-83 | equals `Write`: supersede, then store with the owned keys |
| TTLCacheObject.TTLCache.InvalidateKey | packages/bluetape-cache/src/bluetape/cache/_sync.py:85-91 | equals `Remove` |
| TTLCacheObject.TTLCache.ClearAll | packages/bluetape-cache/src/bluetape/cache/_sync.py:93-99 | equals `Reset`: every active flight superseded, the epoch advanced |
| TTLCacheObject.TTLCache.Size | packages/bluetape-cache/src/bluetape/cache/_sync.py:164-166 | equals `Purged` |
| TTLCacheObject.TTLCache.SupersedeFlight | packages/bluetape-cache/src/bluetape/cache/_sync.py:175-179 | the key's active flight is marked and leaves the active table |
| TTLCacheObject.TTLCache.BeginLoad | packages/bluetape-cache/src/bluetape/cache/_sync.py:114-140 | equals `BeginLoad`, which gives a hit, a join, a rejection or a new owned flight exactly when `AnswersIff` says |
| TTLCacheObject.TTLCache.FinishFlight | packages/bluetape-cache/src/bluetape/cache/_sync.py:181-218 | publication test, store, outcome and table removal, as `Finish` |
| SyncCache.ApplyKeeps | packages/bluetape-cache/src/bluetape/cache/_sync.py:69-218 | every section keeps the flight invariant and changes which flights are current exactly by what it touches |
| SyncCache.CanPublishIff | packages/bluetape-cache/src/bluetape/cache/_sync.py:191-198 | for an owned flight the test is: the load succeeded and the flight is current |
| SyncCache.CurrentIffUntouched | packages/bluetape-cache/src/bluetape/cache/_sync.py:101-218 | in every interleaving an owned flight is current, active and not superseded, all three, if and only if no set, invalidate or clear touched its key since admission |
| SyncCache.PublishedIffUntouched | packages/bluetape-cache/src/bluetape/cache/_sync.py:181-218 | a successful load is stored with its own TTL if and only if its key was not touched since admission; its outcome is the value either way |
| SyncCache.OutcomeIff | packages/bluetape-cache/src/bluetape/cache/_sync.py:181-218 | however a load ends, its flight ends with its result or failure, or with that of a clock that fails while an untouched result is stored; nothing else is stored |
| SyncCache.ReadIff | packages/bluetape-cache/src/bluetape/cache/_sync.py:69-71 | a read finds a value exactly if its key has an entry that no due heap record with its version removes, and then that entry's |
| SyncCache.RemoveIff | packages/bluetape-cache/src/bluetape/cache/_sync.py:85-91 | an invalidate says that it removed something exactly if such an entry was there before the call |
| SyncCache.ActiveIffLoading | packages/bluetape-cache/src/bluetape/cache/_sync.py:101-218 | the active table holds exactly the unfinished flights whose key nothing has touched since their admission |
| SyncCache.AnswersIff | packages/bluetape-cache/src/bluetape/cache/_sync.py:114-140 | in every interleaving a caller gets a hit if and only if its key survives the purge, else joins if and only if an untouched load of its key is unfinished, else is rejected if and only if `max_inflight` loads are owned, else owns a new flight |
| SyncCache.JoinsLiveFlight | packages/bluetape-cache/src/bluetape/cache/_sync.py:120-124 | a caller joins only an unfinished, untouched flight of its own key |
| SyncCache.OutcomeFixed | packages/bluetape-cache/src/bluetape/cache/_sync.py:211-225 | a terminal flight's outcome never changes, so all its callers read one |
| SyncCache.FlightsGrow | packages/bluetape-cache/src/bluetape/cache/_sync.py:126-140 | no section removes a flight, changes its admission or revokes its outcome; a new owned one is current |
| SyncCache.HitIsFresh | packages/bluetape-cache/src/bluetape/cache/_sync.py:69-124 | in every interleaving a hit is the last set or published load of its key, before its deadline |
| SyncCache.RunBounded | packages/bluetape-cache/src/bluetape/cache/_sync.py:126-139 | entries, heap, owned flights and versions (at most `max_size + max_inflight`) are bounded after every section |
| AsyncTTLCacheObject.AsyncTTLCache.BeginLoad | packages/bluetape-cache/src/bluetape/cache/_async.py:139-176 | hit, join, rejection, failed task creation or a new flight with one waiter |
| AsyncTTLCacheObject.AsyncTTLCache.ReleaseWaiter | packages/bluetape-cache/src/bluetape/cache/_async.py:254-266 | one waiter fewer; the last one of an unfinished flight abandons it and is told to cancel |
| AsyncTTLCacheObject.AsyncTTLCache.CompleteFlight | packages/bluetape-cache/src/bluetape/cache/_async.py:304-324 | publication, table removal and version drop |
| AsyncTTLCacheObject.AsyncTTLCache.EndFlight | packages/bluetape-cache/src/bluetape/cache/_async.py:320-324 | the removal both completions share |
| AsyncRuns.WaitersCountCallers | packages/bluetape-cache/src/bluetape/cache/_async.py:145-184 | in every run `waiters` is the number of callers between join and release, and an unfinished flight has none exactly when abandoned |
| AsyncRuns.CancelledOnlyUnwaited | packages/bluetape-cache/src/bluetape/cache/_async.py:254-266 | the loader is cancelled only by the last waiting caller, and then nobody waits or can join |
| AsyncRuns.ActiveIffUnmutated | packages/bluetape-cache/src/bluetape/cache/_async.py:139-266 | an owned flight can be joined if and only if no set, invalidate or clear touched its key since its admission and it was not abandoned |
| AsyncRuns.AnswersIff | packages/bluetape-cache/src/bluetape/cache/_async.py:139-176 | in every interleaving each of hit, wait, rejection, failed task and new flight is given in exactly its case: a wait joins the unfinished, still awaited load of the key that nothing has mutated |
| AsyncRuns.HopelessForever | packages/bluetape-cache/src/bluetape/cache/_async.py:254-266 | once nobody waits and nobody can find the flight, that stays so |
| AsyncRuns.CurrentIffUndisturbed | packages/bluetape-cache/src/bluetape/cache/_async.py:288-295 | an owned flight is current if and only if nothing touched its key and no flight of its key was abandoned since its admission |
| AsyncRuns.PublishedIffUndisturbed | packages/bluetape-cache/src/bluetape/cache/_async.py:304-324 | exactly then a successful load is stored |
| AsyncRuns.OutcomeIff | packages/bluetape-cache/src/bluetape/cache/_async.py:268-324 | however a load ends, its flight ends with its result or failure, or with that of a clock that fails while an undisturbed result is stored; nothing else is stored |
| AsyncRuns.AbandonedNeverStored | packages/bluetape-cache/src/bluetape/cache/_async.py:254-324 | an abandoned flight's load is never stored |
| AsyncRuns.AbandonBlocksNewerFlight | packages/bluetape-cache/src/bluetape/cache/_async.py:265-265 | the unconditional bump on abandoning can also drop a newer, untouched flight's value |
| AsyncRuns.HitIsFresh | packages/bluetape-cache/src/bluetape/cache/_async.py:94-184 | a hit is the last set or undisturbed load of its key, before its deadline |
| AsyncRuns.RunBounded | packages/bluetape-cache/src/bluetape/cache/_async.py:150-164 | owned flights never exceed `max_inflight`; entries, heap and versions are bounded |
| Decimal.LexIsNumeric | packages/bluetape-leader-redis/src/bluetape/leader/redis/_scripts.py:17-17 | for digit strings of one length, string order is numeric order |
| Decimal.ValidFenceIffInRange | packages/bluetape-leader-redis/src/bluetape/leader/redis/_scripts.py:14-19 | the length-then-text test accepts exactly the decimal texts of 1 to 2^63-1 |
| Decimal.TextOfValue | packages/bluetape-leader-redis/src/bluetape/leader/redis/_support.py:704-714 | a canonical decimal is the text of its value |
| LeaseRecord.ParseIff | packages/bluetape-leader-redis/src/bluetape/leader/redis/_support.py:131-140 | the client reads exactly the texts of valid records, each as that record |
| LeaseRecord.LuaParseIff | packages/bluetape-leader-redis/src/bluetape/leader/redis/_scripts.py:59-62 | so does the scripts' pattern with its length and fence checks |
| LeaseRecord.ReadersAgree | packages/bluetape-leader-redis/src/bluetape/leader/redis/_scripts.py:223-232 | whatever the scripts accept the client reads as the same record |
| LeaseRecord.TextInjective | packages/bluetape-leader-redis/src/bluetape/leader/redis/_support.py:127-128 | different records have different texts, so comparing texts compares records |
| LeaderScripts.RedisKeys.AcquireScript | packages/bluetape-leader-redis/src/bluetape/leader/redis/_scripts.py:35-77 | on well-formed keys the abstract acquire, on any others `CORRUPT` and no change; contended exactly when well-formed keys hold a live lease, and then nothing is written |
| LeaderScripts.RedisKeys.RenewScript | packages/bluetape-leader-redis/src/bluetape/leader/redis/_scripts.py:79-93 | on a well-formed lease the abstract renew; writes only when the text is exactly the record's |
| LeaderScripts.RedisKeys.ProbeScript | packages/bluetape-leader-redis/src/bluetape/leader/redis/_scripts.py:95-108 | on a well-formed lease the abstract probe, otherwise `CORRUPT` |
| LeaderScripts.RedisKeys.ReconcileScript | packages/bluetape-leader-redis/src/bluetape/leader/redis/_scripts.py:110-122 | reports the record that holds the lease, or its absence |
| LeaderScripts.RedisKeys.ReleaseScript | packages/bluetape-leader-redis/src/bluetape/leader/redis/_scripts.py:124-142 | deletes or shortens exactly the record's own lease |
| LeaderScripts.AbsFacts | packages/bluetape-leader-redis/src/bluetape/leader/redis/_scripts.py:37-53 | well-formed keys have a history exactly when they have a fence, and the lease carries that fence |
| LeaderScripts.AbsIff | packages/bluetape-leader-redis/src/bluetape/leader/redis/_scripts.py:37-76 | keys stand for a server exactly if they hold the history mark, the counter's text and a live lease's record text, or nothing at all before the first fence |
| LeaderScripts.AbsLater | packages/bluetape-leader-redis/src/bluetape/leader/redis/_scripts.py:64-66 | the passing of time only makes a reached lease vanish |
| LeaderScripts.AfterAcquire | packages/bluetape-leader-redis/src/bluetape/leader/redis/_scripts.py:69-76 | the keys an acquire leaves stand for the next counter and its lease |
| LeaderScripts.RefinesWhole | packages/bluetape-leader-redis/src/bluetape/leader/redis/_scripts.py:79-142 | a script that touches only the lease does what the abstract command does to the whole server |
| LeaderServer.RunInv | packages/bluetape-leader-redis/src/bluetape/leader/redis/_scripts.py:35-142 | in every run a lease's fence equals the counter, which stays within its range |
| LeaderServer.FencesIncrease | packages/bluetape-leader-redis/src/bluetape/leader/redis/_scripts.py:69-76 | every fence handed out exceeds all earlier ones |
| LeaderServer.CorruptOnlyWhenExhausted | packages/bluetape-leader-redis/src/bluetape/leader/redis/_scripts.py:69-69 | from empty keys an acquire is refused as corrupt only at 2^63-1 |
| LeaderServer.AcquireIff | packages/bluetape-leader-redis/src/bluetape/leader/redis/_scripts.py:54-76 | in every run an acquire is contended if and only if some lease is live, and then changes nothing; it succeeds if and only if none is and a fence is left, and then leaves exactly the caller's lease with the next fence |
| LeaderServer.RepliesIff | packages/bluetape-leader-redis/src/bluetape/leader/redis/_scripts.py:79-142 | renew, probe, reconcile and release answer exactly whether the record, or any, holds a live lease, and leave exactly that lease extended, kept, deleted or shortened |
| LeaderServer.CutStep | packages/bluetape-leader-redis/src/bluetape/leader/redis/_scripts.py:64-142 | before its deadline a lease is cut short exactly by a renew or release of its own record that asks for less; an acquire leaves it alone |
| LeaderServer.LostEarlyIff | packages/bluetape-leader-redis/src/bluetape/leader/redis/_scripts.py:64-142 | in any continuation a lease is lost before its deadline if and only if such a command was executed, and until then every acquire is contended |
| LeaderServer.StaleCommandHarmless | packages/bluetape-leader-redis/src/bluetape/leader/redis/_scripts.py:79-142 | a command carrying a record changes nothing unless the lease is exactly that record |
| LeaderServer.NeverHeldAgain | packages/bluetape-leader-redis/src/bluetape/leader/redis/_scripts.py:69-141 | once the lease stops being a record that was handed out it never becomes it again |
| LeaderServer.ProlongStep | packages/bluetape-leader-redis/src/bluetape/leader/redis/_scripts.py:79-141 | one script takes a record beyond a deadline exactly when it is a renew or release of it that finds it held and asks for that much |
| LeaderServer.ProlongedIff | packages/bluetape-leader-redis/src/bluetape/leader/redis/_scripts.py:79-141 | in any continuation a lease is ever held beyond its deadline if and only if such a command was executed |
| LeaderServer.HeldRecordsOrdered | packages/bluetape-leader-redis/src/bluetape/leader/redis/_scripts.py:54-76 | two records never hold the lease at one time, and the later holder has the greater fence |
| LeaderHandle.RedisLockLease.BeginOperation | packages/bluetape-leader-redis/src/bluetape/leader/redis/_lock.py:110-113 | raises the stored failure, denies when lost or released, otherwise goes on |
| LeaderHandle.RedisLockLease.EndOperation | packages/bluetape-leader-redis/src/bluetape/leader/redis/_lock.py:127-144 | settles a renew or probe: equals `Settle` and makes only allowed moves |
| LeaderHandle.RedisLockLease.FinishTerminalRelease | packages/bluetape-leader-redis/src/bluetape/leader/redis/_lock.py:205-213 | what a release does on a handle that is already terminal |
| LeaderHandle.RedisLockLease.EndRelease | packages/bluetape-leader-redis/src/bluetape/leader/redis/_lock.py:198-203 | settles the first release script, a timeout going on to reconcile |
| LeaderHandle.RedisLockLease.EndReconcile | packages/bluetape-leader-redis/src/bluetape/leader/redis/_lock.py:241-254 | settles the reconcile answer |
| LeaderHandle.RedisLockLease.EndRepeat | packages/bluetape-leader-redis/src/bluetape/leader/redis/_lock.py:263-270 | settles the repeated release |
| LeaderHandle.RedisLockLease.FinishReleaseStatus | packages/bluetape-leader-redis/src/bluetape/leader/redis/_lock.py:272-281 | released, lost or unknown, by the script's status |
| LeaderHandle.RedisLockLease.FailWith | packages/bluetape-leader-redis/src/bluetape/leader/redis/_lock.py:283-286 | unknown, with this failure stored and raised |
| LeaderHandle.RedisLockLease.EnterScope | packages/bluetape-leader-redis/src/bluetape/leader/redis/_lock.py:289-293 | only an acquired handle can be entered |
| LeaderHandle.RedisLockLease.StopTimedOut | packages/bluetape-leader-redis/src/bluetape/leader/redis/_lock.py:386-398 | a worker that does not stop makes the handle unknown, keeping an earlier failure |
| LeaderHandle.RedisLockLease.WorkerCrashed | packages/bluetape-leader-redis/src/bluetape/leader/redis/_lock.py:409-413 | so does a crashed worker |
| LeaderHandle.RemainingMinimum | packages/bluetape-leader-redis/src/bluetape/leader/redis/_lock.py:227-231 | the least number of whole milliseconds that reaches the minimum lease time |
| LeaderRuns.ApplyKeeps | packages/bluetape-leader-redis/src/bluetape/leader/redis/_lock.py:109-286 | every step of every interleaving of calls, replies, losses and other clients keeps the handle truthful and makes only allowed moves |
| LeaderRuns.MovesOnlyForward | packages/bluetape-leader-redis/src/bluetape/leader/redis/_lock.py:205-286 | over whole runs: unknown is absorbing with a fixed failure, lost and released never become each other or usable again |
| LeaderRuns.LostMeansGone | packages/bluetape-leader-redis/src/bluetape/leader/redis/_lock.py:136-143 | a lost handle's record is never again held by the server |
| LeaderRuns.ReleasedMeansReleased | packages/bluetape-leader-redis/src/bluetape/leader/redis/_lock.py:272-275 | a released handle's own release script was executed and succeeded |
| LeaderRuns.AnswersTrue | packages/bluetape-leader-redis/src/bluetape/leader/redis/_lock.py:109-281 | what an ended renew, probe or release told its caller is true of the server |
| LeaderRuns.OperationDecides | packages/bluetape-leader-redis/src/bluetape/leader/redis/_lock.py:109-172 | in every run a renew or probe is confirmed if and only if its handle is in use and its script found the record held; not held loses the handle, anything else makes it unknown |
| LeaderRuns.ReleaseDecides | packages/bluetape-leader-redis/src/bluetape/leader/redis/_lock.py:183-281 | a release is done if and only if its handle is in use and its script deleted or shortened the lease; only a timed-out first script goes on to reconcile |
| LeaderRuns.ReconcileDecides | packages/bluetape-leader-redis/src/bluetape/leader/redis/_lock.py:233-257 | a reconciliation repeats the release if and only if the lease still has this owner; absence makes the handle unknown, another owner loses it |
| LeaderRuns.OtherSectionsDecide | packages/bluetape-leader-redis/src/bluetape/leader/redis/_lock.py:109-296 | requests are sent exactly while the handle is in use, a scope is entered once, a failed worker leaves the first failure |
| LeaderRuns.ProlongedIff | packages/bluetape-leader-redis/src/bluetape/leader/redis/_lock.py:109-286 | the same for every run of a handle with its calls, lost replies and other clients |
| LeaderRuns.OutlivesIff | packages/bluetape-leader-redis/src/bluetape/leader/redis/_lock.py:183-286 | the lease of a terminal handle, so of a released one with its minimum time, can outlive its deadline if and only if a renew or release of the record asking for two or more milliseconds is still unexecuted |
| LeaderRuns.LateReleaseOutlivesRelease | packages/bluetape-leader-redis/src/bluetape/leader/redis/_lock.py:195-270 | a timed-out release script executed after its repetition lets the minimum count again from that later time |
| LeaderRuns.LateRenewalOutlivesRelease | packages/bluetape-leader-redis/src/bluetape/leader/redis/_lock.py:109-141 | a renewal sent before a minimum-time release and executed after it still extends the lease for its full time |
| AcquireCalls.RunSound | packages/bluetape-leader-redis/src/bluetape/leader/redis/_lock.py:465-537 | in every run a lease or a reconciled record under the call's owner token is one of its own attempts' writes |
| AcquireCalls.WritesOnce | packages/bluetape-leader-redis/src/bluetape/leader/redis/_lock.py:477-507 | a call writes one record at most, however late its scripts run |
| AcquireCalls.ReturnedIsWritten | packages/bluetape-leader-redis/src/bluetape/leader/redis/_lock.py:465-537 | a returned handle, also one found by reconciliation, holds exactly the record its call wrote |
| AcquireCalls.ReturnedStartsHandle | packages/bluetape-leader-redis/src/bluetape/leader/redis/_lock.py:539-564 | a returned record was handed out by the server, which is what every theorem about its handle starts from |
| AcquireCalls.AnsweredIff | packages/bluetape-leader-redis/src/bluetape/leader/redis/_lock.py:477-537 | a call returns a record if and only if its attempt acquired it or its reconciliation found its own owner; it goes on if and only if contended, reconciles if and only if uncertain, and else fails |
| AcquireCalls.SendsIff | packages/bluetape-leader-redis/src/bluetape/leader/redis/_lock.py:476-515 | it sends only attempts and one reconciliation, and gives up only after a contended attempt |
| AcquireCalls.NoneWritesNothing | packages/bluetape-leader-redis/src/bluetape/leader/redis/_lock.py:479-510 | a call that returned no lease never writes one |
| Utf8.DecodeIff | packages/bluetape-cache-redis/src/bluetape/cache/redis/_formats.py:174-178 | strict decoding accepts exactly the UTF-8 forms, each as the text it encodes |
| Envelope.EncodeEnvelope | packages/bluetape-cache-redis/src/bluetape/cache/redis/_formats.py:88-150 | succeeds exactly on envelopes that fit, with their layout; the computed size is what is written; each error has its exact cause |
| Envelope.DecodeEnvelope | packages/bluetape-cache-redis/src/bluetape/cache/redis/_formats.py:152-201 | succeeds exactly on the layouts of valid version-1 envelopes within the bound, with that envelope; size and version errors told apart exactly |
| Envelope.Take | packages/bluetape-cache-redis/src/bluetape/cache/redis/_formats.py:44-48 | succeeds exactly when the bytes are there, and never moves past the end |
| Envelope.ReadU32Step | packages/bluetape-cache-redis/src/bluetape/cache/redis/_formats.py:51-53 | a read number is what its four bytes pack, and conversely |
| Envelope.ReadTextStep | packages/bluetape-cache-redis/src/bluetape/cache/redis/_formats.py:56-66 | a read text is exactly a length and that many ASCII bytes within the limit |
| Envelope.ReadContentStep | packages/bluetape-cache-redis/src/bluetape/cache/redis/_formats.py:168-178 | the optional content type, its absence included |
| Envelope.LayoutSize | packages/bluetape-cache-redis/src/bluetape/cache/redis/_formats.py:121-149 | the computed size is the length of the layout |
| Envelope.SampleBytes | packages/bluetape-cache-redis/src/bluetape/cache/redis/_formats.py:19-150 | the bytes of one envelope, field by field |
| Envelope.AppendedIsLayout | packages/bluetape-cache-redis/src/bluetape/cache/redis/_formats.py:130-147 | the bytes appended one by one are the layout |
| Envelope.LayoutInjective | packages/bluetape-cache-redis/src/bluetape/cache/redis/_formats.py:152-199 | two envelopes never share a layout |
| Envelope.EncodeThenDecode | packages/bluetape-cache-redis/src/bluetape/cache/redis/_formats.py:88-201 | decode(encode(e)) == e |
| Envelope.DecodeThenEncode | packages/bluetape-cache-redis/src/bluetape/cache/redis/_formats.py:88-201 | encode(decode(b)) == b |
| ResultCodec.BuildRegistry | packages/bluetape-cache-redis/src/bluetape/cache/redis/_envelope.py:38-47 | refused exactly for an invalid, reserved or repeated algorithm; otherwise each algorithm leads to its compressor |
| ResultCodec.EncodeValue | packages/bluetape-cache-redis/src/bluetape/cache/redis/_envelope.py:90-129 | the layout of the owner's envelope, whenever there is one within the bound; the token, payload, compression and size errors have their exact causes |
| ResultCodec.DecodeMatching | packages/bluetape-cache-redis/src/bluetape/cache/redis/_envelope.py:136-175 | on a layout, what opening its envelope gives; the owner is compared before the payload is looked at; on anything else the version or the envelope error, told apart exactly |
| ResultCodec.OpensOwn | packages/bluetape-cache-redis/src/bluetape/cache/redis/_envelope.py:154-171 | what an owner encoded opens to its value under its token and to a mismatch, never an error, under any other |
| CoordinatedResults.ReusedValueIsOwners | packages/bluetape-cache-redis/src/bluetape/cache/redis/_coordination.py:273-283 | a completed marker's result decodes under its token to the value that token's owner encoded; mismatch and decoding errors are unreachable |
| Coordination.CoordinationKeys.SetIfAbsent | packages/bluetape-cache-redis/src/bluetape/cache/redis/_provider.py:396-413 | the abstract claim |
| Coordination.CoordinationKeys.PublishIfValue | packages/bluetape-cache-redis/src/bluetape/cache/redis/_provider.py:51-58 | the abstract publish: result and completion marker together, only over the own active marker |
| Coordination.CoordinationKeys.DeleteIfValue | packages/bluetape-cache-redis/src/bluetape/cache/redis/_provider.py:27-32 | the abstract cleanup |
| Coordination.CoordinationKeys.Snapshot | packages/bluetape-cache-redis/src/bluetape/cache/redis/_provider.py:34-49 | the six-part answer for any keys and limits |
| Coordination.AbsIff | packages/bluetape-cache-redis/src/bluetape/cache/redis/_provider.py:27-58 | keys stand for a phase exactly if they hold nothing, an active marker alone, or a completion marker and a result that expire together |
| Coordination.AbsLater | packages/bluetape-cache-redis/src/bluetape/cache/redis/_provider.py:51-58 | the result is there exactly when the marker is a completion, and both expire together |
| Coordination.SnapshotPartIff | packages/bluetape-cache-redis/src/bluetape/cache/redis/_provider.py:146-189 | a reply about a key is accepted exactly if some content of the key would give it, and is read as that content cut at the limit |
| Coordination.SnapshotExact | packages/bluetape-cache-redis/src/bluetape/cache/redis/_provider.py:146-189 | the script's answer is never an invalid response and says exactly what the keys hold, cut at the limits |
| Coordination.SnapshotNeverTorn | packages/bluetape-cache-redis/src/bluetape/cache/redis/_provider.py:34-49 | a waiter sees no marker, an active one, or a completion with its whole result, within the codec's bound: the oversize, unreadable-marker and missing-result errors are unreachable |
| Coordination.OriginOfCompleted | packages/bluetape-cache-redis/src/bluetape/cache/redis/_provider.py:51-58 | a result is there only because its token's owner published exactly it |
| Coordination.PublishNeedsOwnMarker | packages/bluetape-cache-redis/src/bluetape/cache/redis/_provider.py:51-58 | a publish succeeds exactly while its own active marker is live, and leaves exactly its completion and bytes for its time |
| Coordination.ClaimAndCleanupExact | packages/bluetape-cache-redis/src/bluetape/cache/redis/_provider.py:27-58 | a claim wins exactly when no marker is live, and leaves exactly its own active marker for its time; a cleanup removes exactly its own active marker |
| Coordination.PublishesOnce | packages/bluetape-cache-redis/src/bluetape/cache/redis/_provider.py:51-58 | with unique tokens no token publishes twice |
| Coordination.LaterWinnerExcludes | packages/bluetape-cache-redis/src/bluetape/cache/redis/_provider.py:51-58 | after another claim has won, the earlier winner cannot publish |
| Coordination.ParseMarkerIff | packages/bluetape-cache-redis/src/bluetape/cache/redis/_coordination.py:61-70 | a marker is read back exactly, and nothing else is a marker |
| FlightLoop.RunFlight | packages/bluetape-cache-redis/src/bluetape/cache/redis/_coordination.py:213-291 | whatever the server, clock and loader do, the flight ends with at most `max_attempts` claims and `max_attempts + max_polls` looks, a claim comes first or after a look without a marker, a look after a lost claim or a sleep, a sleep after a look with one and for the next poll delay, every clock reading between them is before the deadline, a reusable look is the last action, and each outcome has its cause |
| FlightLoop.Inspect | packages/bluetape-cache-redis/src/bluetape/cache/redis/_coordination.py:268-283 | a snapshot means no marker, one more poll, or the end of the flight, each exactly for its cause |
| FlightLoop.RunOwner | packages/bluetape-cache-redis/src/bluetape/cache/redis/_coordination.py:293-328 | after the load: publishes if and only if there is a value, its encoding succeeds and the clock is before the end of the lease after both; each outcome with exactly its actions |
| FlightLoop.PublishesIff | packages/bluetape-cache-redis/src/bluetape/cache/redis/_coordination.py:239-328 | a winner in time runs its loader; it publishes if and only if load and encoding succeed within its lease, returns the value as loaded if and only if that is accepted, and as lease-lost if and only if it is refused or the lease had ended |
| FlightLoop.OwnerActsOnce | packages/bluetape-cache-redis/src/bluetape/cache/redis/_coordination.py:239-328 | at most one load, one publish and one cleanup, under the winning token |
| FlightLoop.ClampIsExact | packages/bluetape-cache-redis/src/bluetape/cache/redis/_coordination.py:73-80 | clamping the exponent never changes the poll delay |
| CoordinatedFlights.HonestLook | packages/bluetape-cache-redis/src/bluetape/cache/redis/_coordination.py:261-283 | while every owner publishes its own value no look is refused or fails to decode, and a completed marker always gives its owner's value |
| CoordinatedFlights.FlightReusesFirst | packages/bluetape-cache-redis/src/bluetape/cache/redis/_coordination.py:258-291 | a flight on the protocol never ends with an invalid artifact or, waiting, with a decoding failure; the first completed marker it sees is its last look, and it returns that owner's value unless too late |
| FlightLoop.CeilLog2 | packages/bluetape-cache-redis/src/bluetape/cache/redis/_coordination.py:74-74 | the least exponent whose power of two reaches the ratio |
| JsonTree.BoundBelowSize | packages/bluetape-serde/src/bluetape/serde/_json.py:91-148 | the running lower bound never exceeds the size of the compact UTF-8 form |
| JsonTree.QuotedSize | packages/bluetape-serde/src/bluetape/serde/_json.py:91-105 | nor does a string's own bound |
| JsonPreflight.Preflight | packages/bluetape-serde/src/bluetape/serde/_json.py:108-168 | the explicit-stack walk does exactly what the recursive one does, errors included, in at most `max_output_size + 1` visits, on any shared or cyclic graph |
| JsonPreflight.Visit | packages/bluetape-serde/src/bluetape/serde/_json.py:121-148 | an accepted visit raises the bound and stays within the limit |
| JsonAcceptance.UnfoldsOnce | packages/bluetape-serde/src/bluetape/serde/_json.py:150-166 | a graph unfolds to one tree at most |
| JsonAcceptance.VisitSound | packages/bluetape-serde/src/bluetape/serde/_json.py:121-168 | an accepted visit has a valid tree within the depth limit, and the bound grew by exactly the tree's |
| JsonAcceptance.VisitComplete | packages/bluetape-serde/src/bluetape/serde/_json.py:121-168 | a fitting tree is accepted: its containers are never on their own path |
| JsonAcceptance.AcceptsIff | packages/bluetape-serde/src/bluetape/serde/_json.py:108-168 | the guard accepts exactly the graphs that unfold to a valid finite tree within the depth and size limits |
| JsonAcceptance.FittingIsAccepted | packages/bluetape-serde/src/bluetape/serde/_json.py:108-168 | every valid value whose compact form fits is let through |
| JsonPreflight.LimitOnly | packages/bluetape-serde/src/bluetape/serde/_json.py:108-168 | the size limit refuses exactly the walks that would go beyond it before they end or are refused for another reason; every other walk ends as it would without a limit |
| JsonAcceptance.RefusalIsTrue | packages/bluetape-serde/src/bluetape/serde/_json.py:108-168 | a refusal names something that is reachable in the value: a too long integer, a non-finite number, a container too deep or on its own path, a key or string that is not text |
| JsonScan.PreflightText | packages/bluetape-serde/src/bluetape/serde/_json.py:242-263 | the loop accepts exactly the text the scan passes |
| JsonScan.ScanEscapedText | packages/bluetape-serde/src/bluetape/serde/_json.py:249-255 | whatever a string contains, the scanner is inside it until its closing quote |
| JsonScan.ScanValue | packages/bluetape-serde/src/bluetape/serde/_json.py:242-263 | on the compact text of any value it ends outside a string at its own depth, and passes exactly when the value's depth fits |
| JsonScan.AcceptedTextPasses | packages/bluetape-serde/src/bluetape/serde/_json.py:108-263 | text of a value the encode side accepts at a depth limit passes the scan at that limit |
| JsonScan.Normalize | packages/bluetape-serde/src/bluetape/serde/_json.py:293-314 | equals `Normalized` |
| JsonScan.NormalizedIff | packages/bluetape-serde/src/bluetape/serde/_json.py:293-314 | yields the one text without surrogates that has the same UTF-16 form, and fails exactly when there is none |
| Circuit.CircuitData.Transition | packages/bluetape-resilience/src/bluetape/resilience/_circuit.py:81-90 | equals `Switch`: a new generation with all counts at zero |
| Circuit.CircuitData.TryAdmit | packages/bluetape-resilience/src/bluetape/resilience/_circuit.py:92-103 | equals `Admit` |
| Circuit.CircuitData.Release | packages/bluetape-resilience/src/bluetape/resilience/_circuit.py:105-111 | equals `AfterIgnored` |
| Circuit.CircuitData.RecordSuccess | packages/bluetape-resilience/src/bluetape/resilience/_circuit.py:113-123 | equals `AfterSuccess` |
| Circuit.CircuitData.RecordFailure | packages/bluetape-resilience/src/bluetape/resilience/_circuit.py:125-135 | equals `AfterFailure` |
| Circuit.ResolveCall | packages/bluetape-resilience/src/bluetape/resilience/_circuit.py:213-324 | on every path a call resolves its admission exactly once, as a failure only for a classified exception |
| Circuit.RunInv | packages/bluetape-resilience/src/bluetape/resilience/_circuit.py:81-135 | in every interleaving of out-of-order resolutions the invariant holds |
| Circuit.SlotsAreBounded | packages/bluetape-resilience/src/bluetape/resilience/_circuit.py:92-121 | the in-flight count is the number of unresolved slot owners of the current generation, within the limit |
| Circuit.StaleChangesNothing | packages/bluetape-resilience/src/bluetape/resilience/_circuit.py:105-127 | an outcome of an older generation changes nothing |
| Circuit.OpensAtThreshold | packages/bluetape-resilience/src/bluetape/resilience/_circuit.py:125-135 | a closed breaker opens on exactly the resolution that brings the trailing run of its generation's classified failures to the threshold |
| Circuit.HalfOpenDecides | packages/bluetape-resilience/src/bluetape/resilience/_circuit.py:113-130 | it closes on exactly the success that reaches the recovery threshold and reopens, with a fresh deadline, on exactly a current failure |
| Circuit.OpenLetsOneProbe | packages/bluetape-resilience/src/bluetape/resilience/_circuit.py:92-103 | an open breaker asked from its deadline on becomes half-open, one generation later, with that one admission unresolved and owning a slot |
| Circuit.AdmittedIff | packages/bluetape-resilience/src/bluetape/resilience/_circuit.py:92-103 | an admission is refused exactly in an open breaker before its deadline or a half-open one at its limit; one that is given carries the state and generation it leaves, and owns a slot exactly if that is half-open |
| Circuit.EdgesOnly | packages/bluetape-resilience/src/bluetape/resilience/_circuit.py:81-135 | in every run: open only by a current failure, half-open only from open past the deadline, closed only from half-open by a current success; each edge starts a generation and nothing else does |
| Circuit.NeverStuck | packages/bluetape-resilience/src/bluetape/resilience/_circuit.py:92-103 | half-open admits exactly below its limit, so always when nothing is unresolved; open admits exactly from its deadline on |
| Ids.DigitIsAlphabet | packages/bluetape-id/src/bluetape/id/_ulid.py:8-8 | the digits are the alphabet's characters, in order |
| Ids.EncodeUlid | packages/bluetape-id/src/bluetape/id/_ulid.py:14-20 | the 26 base-32 digits of timestamp and randomness |
| Ids.DecodeUlid | packages/bluetape-id/src/bluetape/id/_ulid.py:23-33 | succeeds exactly on digit strings below 2^128, with their number |
| Ids.NumberOfDigits | packages/bluetape-id/src/bluetape/id/_ulid.py:14-33 | decoding undoes encoding |
| Ids.DigitsOfNumber | packages/bluetape-id/src/bluetape/id/_ulid.py:14-33 | encoding undoes decoding |
| Ids.OrderIff | packages/bluetape-id/src/bluetape/id/_ulid.py:8-20 | numeric order is string order |
| Ids.UlidTimestamp | packages/bluetape-id/src/bluetape/id/_ulid.py:94-104 | returns the millisecond field of exactly the canonical strings |
| Ids.MonotonicUlidGenerator.New | packages/bluetape-id/src/bluetape/id/_ulid.py:73-91 | a later identifier, as number and as text, or an error with the state unchanged |
| Ids.UlidNextIff | packages/bluetape-id/src/bluetape/id/_ulid.py:73-91 | a clock that moves on gives its millisecond with the fresh randomness, a stalled one exactly the next number; it fails exactly for bad inputs or when the millisecond has no number left |
| Ids.UlidCarriesLatest | packages/bluetape-id/src/bluetape/id/_ulid.py:73-91 | over whole histories an identifier carries the latest clock reading so far |
| Ids.UlidsIncrease | packages/bluetape-id/src/bluetape/id/_ulid.py:73-91 | for every clock and entropy, over whole histories |
| Ids.Uuid7Generator.New | packages/bluetape-id/src/bluetape/id/_uuid.py:31-57 | a greater UUID with its version and variant, or an error with the state unchanged |
| Ids.UuidLayout | packages/bluetape-id/src/bluetape/id/_uuid.py:50-54 | version, variant, counter, timestamp and random bits are read back from their fields |
| Ids.UuidReadIff | packages/bluetape-id/src/bluetape/id/_uuid.py:80-82 | a timestamp is read exactly from the numbers with the version 7 layout, and is their millisecond field |
| Ids.SeedBits | packages/bluetape-id/src/bluetape/id/_uuid.py:34-35 | the counter seed is the low 12 bits of the first two bytes, the random part the low 62 bits of the others |
| Ids.UuidNextIff | packages/bluetape-id/src/bluetape/id/_uuid.py:37-48 | a stalled clock counts on and carries into the next millisecond with a fresh seed; it fails exactly for bad inputs or at the last millisecond |
| Ids.UuidsIncrease | packages/bluetape-id/src/bluetape/id/_uuid.py:31-82 | for every clock and entropy, whatever the random bits, over whole histories |
| JwtKeys.InMemoryKeyRepository.ChangeKey | packages/bluetape-jwt/src/bluetape/jwt/_repository.py:188-221 | equals `MutateKey`, or refuses and publishes nothing |
| JwtKeys.InMemoryKeyRepository.ChangeIdentifier | packages/bluetape-jwt/src/bluetape/jwt/_repository.py:223-248 | equals `MutateIdentifier`; after a revoke the identifier is a tombstone |
| JwtKeys.RetireActive | packages/bluetape-jwt/src/bluetape/jwt/_repository.py:206-209 | the active key steps down, everything else stays |
| JwtKeys.InitialRepository | packages/bluetape-jwt/src/bluetape/jwt/_repository.py:133-165 | accepts exactly compatible keys with a signing active one, and holds them |
| JwtKeys.MutateKeeps | packages/bluetape-jwt/src/bluetape/jwt/_repository.py:188-242 | one active key at most, tombstones stay, keys never change under their identifier, the epoch advances by one |
| JwtKeys.OperationEffect | packages/bluetape-jwt/src/bluetape/jwt/_repository.py:167-248 | each operation leaves exactly its own entry at its own identifier and changes no other, except that a rotation retires the active key, material kept; refused exactly for its causes |
| JwtVerify.VerifiedTokenCache.ObserveEpoch | packages/bluetape-jwt/src/bluetape/jwt/_cache.py:132-142 | another epoch empties the cache |
| JwtVerify.VerifiedTokenCache.Lookup | packages/bluetape-jwt/src/bluetape/jwt/_cache.py:84-101 | equals `Get` |
| JwtVerify.VerifiedTokenCache.Store | packages/bluetape-jwt/src/bluetape/jwt/_cache.py:103-130 | equals `Set`: only for the live epoch and an unexpired token |
| JwtVerify.ApplyKeeps | packages/bluetape-jwt/src/bluetape/jwt/_provider.py:145-213 | every step keeps: a cached result is what its token's signature check gives at its epoch |
| JwtVerify.AgreesWithoutCache | packages/bluetape-jwt/src/bluetape/jwt/_provider.py:145-232 | with the cache `verify` answers what it answers without it, for the same token, snapshot and time, across any interleaving |
| JwtVerify.AcceptedIff | packages/bluetape-jwt/src/bluetape/jwt/_provider.py:145-213 | over every run a verification accepts a token, as its key and claims, if and only if it is well formed, its header names an active or retired key of the provider's algorithm, that key's material decodes it and its claims hold at the captured time; each refusal has its cause |
| JwtVerify.AcceptedUntilRevoked | packages/bluetape-jwt/src/bluetape/jwt/_repository.py:167-186 | an accepted token stays accepted at its time across every operation but the revocation of its own key |
| JwtVerify.AcceptedAgainIff | packages/bluetape-jwt/src/bluetape/jwt/_provider.py:145-213 | of two verifications of a token at one time the later gives what the earlier accepted if and only if the key was not revoked between |
| JwtVerify.StoredIsFound | packages/bluetape-jwt/src/bluetape/jwt/_cache.py:84-130 | a result is found again exactly if it was stored for the live epoch and unexpired |
| JwtVerify.PublishedIsServed | packages/bluetape-jwt/src/bluetape/jwt/_provider.py:149-213 | what a verification publishes for the live epoch, the next look-up of that token and snapshot answers from |
| JwtVerify.OneEpochCached | packages/bluetape-jwt/src/bluetape/jwt/_cache.py:103-142 | the cache never holds results of more than the epoch it last saw |
| JwtVerify.FourStepsAnswer | packages/bluetape-jwt/src/bluetape/jwt/_provider.py:145-213 | wherever a verification stands, its own steps answer it |
| JwtVerify.RevokedNeverAccepted | packages/bluetape-jwt/src/bluetape/jwt/_repository.py:184-186 | after a revoke no verification that begins later accepts a token of that key |

## Left out

- `heapq`: modelled by its contract, a sorted list of records; `OrderedDict` is a map and an order of keys; a flight's identity is its position in a list.
- `local` load tokens and `RecursiveLoadError`: a thread's or task's own recursion guard, not part of the shared state.
- TTL parsing, configuration checks, error messages, `stats` gauges, observers and logging: per-field checks and reporting.
- Asynchronous `get`, `set`, `invalidate`, `clear` and `size`: the same sections as the synchronous ones, so the runs use the shared functions and `AsyncTTLCache` has only the methods that differ.
- `asyncio` shielding and task creation around `_release_waiter`: a release is one step that may come at any time; a task is taken as done exactly when its flight has left the owned set, because nothing is awaited between the two.
- `_async_lock.py` and `_async_coordination.py`: the same scripts with cancellation mechanics on top; the handle proofs are for the synchronous handle only.
- Renewal timing: that a renewed lease never expires is not claimed, since the accepted options do not bound the worst gap at the server.
- `try_acquire` waiting: its deadline and jitter only decide when it gives up, which is a step that may come at any time between attempts.
- The renewal worker's start and join: modelled by the renewals it makes and the two ways it can end a handle.
- `_duration_milliseconds`, key names, hashing of logical keys and Redis connection checks: inputs of the modelled parts.
- Provider admission and close draining, and provider operations other than the three scripts and set-if-absent.
- The JSON envelope format: it parses with the JSON library; JSON and compact-text parsing itself, compression, Fory, joserfc and SHA-256 are foreign code.
- Normalisation of keys inside decoded objects (`_normalize_decoded_strings`): the string function it applies is modelled, its duplicate-key check is not.
- FlightLoop.RunFlight: clock readings are arbitrary numbers and durations are reals, so floating-point rounding of delays is not modelled.
- Circuit.ResolveCall: events are emitted or fail as one flag, and the clock's finiteness check is part of its failure.
- Ids.Uuid7Generator.New: shifts and masks are divisions and remainders, and `|` of disjoint fields is addition; UUID text parsing is the `uuid` module's.
- JwtVerify.AgreesWithoutCache: header reading, signature check and claim validation are functions of their inputs; a failing cache backend or repository is not modelled, and cache expiry and eviction are entries dropped at any time.
- Bulkhead, retry, pipeline, collections, measure, money, testcontainers and benchmarks: outside these cores.
