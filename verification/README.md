# Verification of swr_cache

A Dafny model of the stale-while-revalidate cache: the SWR engine with its background tasks and its
revalidation map, the stack of tiers it runs on, the in-memory and Redis stores, entries and their two
stored forms, and the composite key. `dafny verify dfyconfig.toml` checks it.

## What is modelled

**The engine** (`src/swr.rs`) is a step machine, `SwrProtocol`. A step is one lock section, one tier
operation, one origin reply or one clock reading of one task, and any other task may take its step in
between. What the code does not decide is a `Choice`: which tier of a write answers next, whether it fails,
what the origin returns, whether a tier has lost the entry. Any number of calls of `get`, `set`, `remove`
and `swr` and any number of spawned tasks are in flight. A lemma about `Reachable` states holds after
every finite run from empty tiers. The machine logs what happens (`Event`); only specifications read the
log. `SwrEngines.SwrEngine` is the same engine as an object: fields changed in place, one method per lock section,
tier operation or clock reading, each proved to take exactly the step of the machine. `Valid` says that the object
is in a reachable state; every method keeps it, so what is proved of reachable states holds of the object between
any two calls. `Execute` drives the object through any run of the machine, and goes through exactly when the run is
possible. What each call does and returns, from the request on, is in `SwrLookups` (`get`), `SwrCalls` (`set`,
`remove`, and `swr` after its first read) and `SwrRetries` (a call that finds its key marked).

**The tiers of the engine** are lossy maps: an entry may vanish at any time, a read may miss or fail. This
covers eviction, Redis deadlines, deleting reads and the library behind `MokaStore`. `SwrLossyTiers` proves that
what the in-memory store does is such a loss.

**The stores** are proved on their own: `HashMapStores` (the store as an object, with its eviction loop) and
`HashMapRuns` (its lock sections interleaved); `RedisStores` (Redis as a map with deadlines) and `RedisRuns` (the
same with the deletes that reads spawn).

**Nested stacks** (`src/tiered.rs`) are `TieredStores` (functions), `TierStacks` (the same with the loops of the
source, over leaves changed in place) and `TieredFlattening`, where a typed, flat reference that knows
neither trees nor storage modes is the specification every tree refines. `TieredRefusals` treats the values that
do not serialize, for which the two differ.

Assumptions: the clock does not run backwards (except where a lemma says otherwise), tasks are not cancelled
and do not panic, `now + fresh_ms` does not overflow `i64`, and the value codec round-trips.

## What was found

* **Draining is not enough for coherence.** With two or more tiers, `swr` can read a stale entry below the
  first tier, so that the backfill of that read and the write of the revalidation are in flight
  together. If the backfill comes last, the first tier is left with the old entry over the new one,
  with nothing in flight any more. `SwrBackfillRace.RaceExactly` says when: in a drained run without an
  earlier race, every schedule ends coherent if and only if the call does not go on to load while
  the backfill of its own read is in flight. `SwrBackfillRace.DrainedCoherenceExactly` says for which stacks.
* **Deduplication is conditional.** Looking for a marker and marking are two lock sections, and a waiter whose
  retry misses loads anyway. Two tasks hold one key at once exactly if some mark was made over a marker
  (`SwrDedup.ExclusiveExactly`, `SwrDedup.OvermarkExplained`); their loads overlap exactly if some mark was made
  while another task of the key was still loading (`SwrDedup.LoadsOverlapExactly`). The two differ
  (`SwrOverlaps.OvermarkWithoutOverlap`).
* **`stale_ms` does not bound the age of a value.** What is bounded is the time since the stamp
  (`SwrProvenance.ServedAge`). As long as no waiter's retry has found anything under the key, that bounds the time since
  the load as well, up to the time the loading call took to stamp (`SwrOrigins.AgeSinceOrigin`). A retry ignores
  expiry and its caller stamps anew: it leads to a stamp of a value its call did not load if and only if it decoded
  something that can be stored (`SwrOrigins.RetryExactly`; a run in which that happens is `SwrAging.RetryRevivesExpired`).
* **A read can lose a write.** `HashMapStore::get` deletes in a second lock section without looking again, and the
  delete that a Redis read spawns may run after a later `set`. In either store an insertion can be lost, other than to
  expiry, eviction, removal or a later write, if and only if such a delete is due under its key and the entry is not
  expired already (`HashMapRuns.WriteLostExactly`, `RedisRuns.WriteLostExactly`). In Redis a delete can come to be due
  exactly after writes whose deadline lies beyond the entry's expiry (`RedisRuns.DeleteSpawnsExactly`).
* **Nesting matters for values that do not serialize**: contents differ from the flat form exactly when a sub-store
  of serialized mode has a memory leaf and the first leaf is in memory, replies exactly when a nested store is empty and every leaf is in memory
  (`TieredRefusals.RefusedContentsExactly`, `TieredRefusals.RefusedRepliesExactly`).

Where documentation and code disagree, the model follows the code: the separator of the composite key
is one colon, not two (`src/utils.rs:8-10`); eviction leaves at most `max_items` entries, not fewer
(`src/stores/memory.rs:21` and `86-94`); deduplication is not unconditional (`README.md:13`).

## Model

| member | source | states |
|---|---|---|
| SwrLookups.GetReturnsFirst | src/swr.rs:83-131 | From any state, when every tier answers by what it holds, a `get` called then returns what the first holder's cell decodes to, starts the backfill of exactly the tiers before it and changes nothing else; it returns None if and only if no tier holds the key |
| SwrLookups.GetFailsAt | src/tiered.rs:65 | A tier that fails before any has hit ends a `get` with its error |
| SwrLookups.GetExplained | src/tiered.rs:64-113 | In every run that finishes a `get`, the tiers were asked in order from the first; None only if each missed, a value only if a tier hit with a cell that decodes to it and all before it missed, an error only if a tier failed or its cell did not decode |
| SwrLookups.ReadFollowed | src/tiered.rs:64-113 | The same for any read, of `get`, of `swr` or of a retry, that a run gets past |
| SwrCalls.SetArrives | src/swr.rs:141-159 | A `set` is refused, with a serialization error and nothing done, if and only if the stack wants serialized entries and this one does not serialize; otherwise it starts to write to every tier exactly the value with the timings of its options, or the defaults |
| SwrCalls.SetTold | src/swr.rs:134-162 | In every run that finishes it, every tier was asked once; the reply is Ok if and only if every tier took the entry; a tier that took it held after that step exactly the value and timestamps asked for, one that did not was left as it was |
| SwrCalls.SetLeaves | src/tiered.rs:116-144 | If it was told Ok and nothing else touched the key, every tier ends with an entry that decodes to exactly what was asked for |
| SwrCalls.RemoveTold | src/tiered.rs:146-172 | In every run that finishes a `remove`, every tier was asked once; the reply is Ok if and only if none failed; a tier that did not fail lost exactly that key in that step, one that failed nothing |
| SwrCalls.RemoveLeaves | src/swr.rs:165-167 | If it was told Ok and nothing else touched the key, no tier ends holding it |
| SwrCalls.SwrDecides | src/swr.rs:243-320 | From any state, when every tier answers by what it holds, an `swr` called then serves the first holder's entry before it expires, with a revalidation once it is stale, and otherwise goes to load, with the expired value, if any, to fall back on |
| SwrCalls.SetThenSwr | src/swr.rs:103-130 | After a `set` that was told Ok, at any later time, an `swr` serves that value if and only if the time is before the expiry its options asked for |
| SwrCalls.ForegroundLoads | src/swr.rs:442-460 | From any state, a call that finds its key free marks, loads, unmarks and returns what it loaded, with exactly one write of it, stamped then with the default timings, to every tier under way, or none if it does not serialize; and what it had to fall back on when the origin gives nothing |
| SwrCalls.BackgroundLoads | src/swr.rs:338-401 | From any state, a revalidation that finds its key marked ends; one that finds it free marks, loads and then has exactly such a write under way while it holds the marker, or is left to unmark when there is nothing to write |
| SwrShares.WorkFollowed | src/tiered.rs:116-172 | Every run that sees a write, removal or backfill to its end has one step of it per tier it had left, each of which does its tier its part or, if refused, nothing; a backfill goes in order and passes over refusals |
| SwrShares.WorkLeaves | src/tiered.rs:116-172 | If none was refused and nothing else touched the key, every such tier ends as that work should leave it |
| SwrShares.BackfillFills | src/tiered.rs:75-106 | A backfill left alone, with every tier accepting, ends with its entry in every tier it had to fill |
| SwrRetries.MarksOnlyAfterRetry | src/swr.rs:424-449 | In every run, a foreground task that found its key marked and later marks has in between woken up, asked the tiers in order from the first and taken up an answer that decoded to nothing, not having marked until then |
| SwrRetries.RetryAnswers | src/swr.rs:427-440 | From any state, when every tier answers by what it holds, such a task takes the first cell there is, expired or not, with or without a fallback, and goes on to mark only if that gives nothing |
| SwrRetries.WaiterNeedNotLoad | src/swr.rs:433-438 | From every reachable state in which some tier holds the key, that settles the call with the value first held and without any mark of the call |
| SwrProvenance.Provenance | src/swr.rs:89-320 | In every reachable state, whatever a finished `get` or `swr` returned and whatever any tier holds was earlier given to `set` or returned by a loader under the same composite key, and a tier's entry has exactly the timestamps one earlier stamp gave it |
| SwrProvenance.ProvenanceByName | src/utils.rs:9-11 | With colon-free namespaces, being traced to a composite key is the same as having been given or loaded under that very namespace and key |
| SwrReplies.SwrIsTotal | src/swr.rs:243-320 | `swr` always returns Ok, and its reply is determined by its first read and the one event that settled it; an expired entry it read is returned whenever its own loader gave nothing |
| SwrReplies.SwrRepliesExactly | src/swr.rs:245-320 | The reply is a function of the first read and of what settled the call; it is None if and only if the first read decoded nothing and the call's own loader returned None |
| SwrReplies.SettledOnce | src/swr.rs:412-460 | No call is given a value, loads and takes one from its retry more than once, nor two of these |
| SwrProvenance.ErrorArmsUnreachable | src/swr.rs:301-318 | No load ever reports an error to `swr` |
| SwrProvenance.ArmByAge | src/swr.rs:103-130 | The arm of `swr` is decided by the age of what was read, each arm if and only if its age; the arm for an expired entry without revalidation is never taken |
| SwrProvenance.SerializedTiersGetSerialized | src/stores/redis.rs:160-171 | In every reachable state a tier that asks for serialized entries holds no other, and no step hands it another, so the rejection arm of Redis is unreachable |
| SwrProvenance.TimestampWindow | src/swr.rs:175-177 | With default timings every entry in every tier keeps `stale_until - fresh_until == stale_ms - fresh_ms` and `fresh_until <= clock + fresh_ms`, and its outer timestamps are the embedded ones |
| SwrProvenance.ServedAge | src/swr.rs:106-130 | What `swr` judges unexpired was stamped, under the same key, less than `stale_ms` before (less than `fresh_ms` if judged fresh), in every run |
| SwrDrain.MarkedImpliesHeld | src/swr.rs:347-407 | In every reachable state a marker is present only while some task of that key is between its mark and its unmark |
| SwrDrain.StepPays | src/swr.rs:338-460 | Every step of every task strictly lowers its rank, by more than the rank of what it spawns |
| SwrDrain.DrainBound | src/swr.rs:338-460 | With no new calls, the number of task steps any schedule can take is at most the total rank, whatever tiers, origin and clock do |
| SwrDrain.TotalRankNonNegative | src/swr.rs:338-460 | The total rank is never negative, and zero exactly when every task is finished |
| SwrDrain.Progress | src/swr.rs:338-460 | A task can move, whatever the others do, if and only if it is not finished |
| SwrDrain.DrainedIsClean | src/swr.rs:374-407 | When no task can move, every task is finished and no marker is left, also after a serialization failure |
| SwrDedup.Deduplication | src/swr.rs:339-357 | If no mark was made over a marker, a key is marked exactly while one task holds it, and at most one does |
| SwrDedup.OvermarkDoubles | src/swr.rs:349-353 | A mark made over a marker puts a second loading task beside the holder |
| SwrDedup.ExclusiveExactly | src/swr.rs:339-357 | Throughout a run at most one task per key is between its mark and its unmark if and only if no mark of the run was made over a marker |
| SwrDedup.LoadsOverlapExactly | src/swr.rs:451-452 | Throughout a run loads of one key never overlap if and only if no mark of the run was made while another task of that key was still loading |
| SwrDedup.OverloadIsOvermark | src/swr.rs:442-452 | The first overlap of loads comes no sooner than a mark over a marker |
| SwrOverlaps.OvermarkWithoutOverlap | src/swr.rs:424-458 | On any stack there is a run with a mark over a marker in which no two loads of a key are ever in flight together |
| SwrDedup.OvermarkExplained | src/swr.rs:424-449 | A task about to mark over a marker either saw none and another task has marked since it looked, or is a foreground waiter whose retry gave nothing |
| SwrLedger.OriginAccounting | src/swr.rs:243-460 | For any set of calls: loads started = `swr` calls whose first read was not fresh, minus background tasks that found a marker, minus retries that hit, minus tasks not yet past their mark |
| SwrLedger.AtMostOneLoadPerCall | src/swr.rs:243-320 | No call starts more than one load, and a call whose first read was fresh starts none |
| SwrCoherence.CoherentStep | src/tiered.rs:59-172 | As long as no two tasks change the tiers under one key at once and none fails, each step keeps every cell either equal to the ideal last-writer entry or due to be overwritten or removed |
| SwrCoherence.OrderlyRunsCohere | src/tiered.rs:59-172 | In every such run, a tier that holds a key that nothing is changing holds exactly the ideal cache's entry, and a key the ideal cache lacks is in no tier |
| SwrDrainedRuns.SoloStep | src/swr.rs:245-320 | Between drained calls without a race, one task and at most one backfill run at a time, for one name, and no task ever waits on a marker |
| SwrDrainedRuns.DrainedRunsCohere | src/tiered.rs:59-172 | After any drained sequence of `get`, `set`, `remove` and `swr` without a race, for any number of tiers and any losses, the stack is a lossy but never wrong copy of the ideal cache |
| SwrDrainedRuns.OneTierRaceFree | src/tiered.rs:64-107 | A stack of at most one tier never races |
| SwrBackfillRace.RaceExactly | src/swr.rs:246-275 | In a drained run without an earlier race, all ways for a call to settle after its read end in a copy of the ideal cache if and only if it does not go on while the backfill of that read is in flight |
| SwrBackfillRace.RaceCanBeLost | src/tiered.rs:75-106 | From any race, stale or expired, whichever tiers are still to be filled, there is a schedule that ends at rest with an entry in a tier that the ideal cache does not have |
| SwrBackfillRace.DrainedCoherenceExactly | src/tiered.rs:59-172 | All drained runs of a stack end coherent if and only if it has at most one tier |
| SwrReads.DrainedReadsAreIdeal | src/swr.rs:83-131 | In a drained run without a race every read that finds something finds the ideal entry; `get` returns its value whatever its age, None when no tier has it, and a failing tier's error |
| SwrOrigins.AgeSinceOrigin | src/swr.rs:356-363 | In every reachable state with default timings and no retry hit under the key, what `swr` serves unexpired was given or loaded, by the call that stamped it, less than `stale_ms` plus that call's load-to-stamp gap before |
| SwrOrigins.RetryExactly | src/swr.rs:433-438 | An answered retry can lead its call to stamp at the current time a value it did not load if and only if the retry decoded something that can be stored |
| SwrOrigins.MissedRetryStampsItsLoad | src/swr.rs:442-460 | If the retry decoded nothing, every stamp its call makes in any run is of its own load |
| SwrAging.RetryRevivesExpired | src/swr.rs:424-440 | There is a run in which a value given once and never loaded is stamped as fresh when its entry expires |
| SwrIsolation.OnlyOwnStepsDisturb | src/utils.rs:9-11 | With colon-free namespaces, in any state and whatever is in flight, a cell or marker of a name changes, other than by loss, only in a step of a task of that very name |
| SwrIsolation.NamespaceIsolation | src/cache.rs:50-57 | From any state, while no task of a namespace takes a step, any actions of others on the same tiers leave each of its entries unchanged or lost, and its markers untouched |
| SwrLossyTiers.EvictionIsLoss | src/stores/memory.rs:79-98 | What an eviction of the in-memory store leaves is reached by the engine's losses in that tier alone |
| SwrLossyTiers.ReadIsHitOrMissAndLoss | src/stores/memory.rs:112-132 | What a read of the in-memory store answers and leaves is a hit or a miss of the engine, then losses in that tier |
| SwrEngines.SwrEngine.constructor | src/swr.rs:71-78 | Starts valid, in the initial state of the machine |
| SwrEngines.SwrEngine.Advance | src/swr.rs:233-460 | Of any task and any choice, takes exactly the machine's step by the one handler that takes it, or does nothing when that step is not open; stays valid |
| SwrEngines.SwrEngine.Execute | src/swr.rs:233-460 | Drives the object through a sequence of actions: it goes through if and only if the sequence is a run of the machine, and ends in that run's state |
| SwrEngines.SwrEngine.Dispatch | src/swr.rs:245-320 | `swr` after its first read: serve, serve and spawn a revalidation, or go on to load; what it returns then is vouched for |
| SwrEngines.SwrEngine.Finish | src/swr.rs:261-319 | Caches a loaded or found value in the background and returns it, or falls back; the reply is Ok, and its value was given or loaded under the key |
| SwrEngines.SwrEngine.FinishGet | src/swr.rs:83-131 | `get` returns what was read, or the error; a value was given or loaded under the key |
| HashMapStores.HashMapStore.MaybeEvict | src/stores/memory.rs:59-99 | Without a configuration, at a frequency of zero or less, and at a roll from the frequency up below one, nothing changes; otherwise the unexpired entries are left if they fit, and if not exactly `max_items` of them, unchanged, none expiring before a dropped one, whatever the iteration order |
| HashMapStores.HashMapStore.CollectExpiries | src/stores/memory.rs:88-91 | Lists each key once, with its expiry |
| HashMapStores.HashMapStore.RemoveOldest | src/stores/memory.rs:94-97 | The removal loop leaves the newest |
| HashMapStores.HashMapStore.Lookup | src/stores/memory.rs:112-131 | The read section answers only unexpired entries and says when a delete is due |
| HashMapStores.HashMapStore.DropExpired | src/stores/memory.rs:123-125 | The write section removes the key, and only it, whatever is there |
| HashMapStores.HashMapStore.Get | src/stores/memory.rs:112-132 | Uninterrupted: the unexpired entry or nothing; an expired entry is gone afterwards and everything else is as it was |
| HashMapStores.HashMapStore.Set | src/stores/memory.rs:134-144 | Uninterrupted: the insertion, then an exact eviction or none, by frequency and roll |
| HashMapStores.HashMapStore.Remove | src/stores/memory.rs:146-155 | Exactly the named keys are gone |
| HashMapStores.SortIsSort | src/stores/memory.rs:92 | Sorting by expiry sorts, permutes and keeps keys distinct |
| HashMapStores.DroppingOldestLeavesNewest | src/stores/memory.rs:94-97 | Dropping the first of any listing sorted by expiry leaves an exact eviction |
| HashMapStores.NewestIsUnique | src/stores/memory.rs:82-98 | With distinct expiries two exact evictions are equal |
| HashMapStores.EvictedExactly | src/stores/memory.rs:82-98 | An eviction leaves unexpired entries only, unchanged, as many as there are up to `max_items`, and drops none of them for one that expires earlier; and that says all |
| HashMapRuns.EvictSectionExactly | src/stores/memory.rs:59-77 | Without a configuration, at a frequency of zero or less, and below one at every roll from the frequency up, the eviction of a `set` changes nothing; at every roll below it, and from one up always, it evicts exactly, and changes the map whenever there is something to drop |
| HashMapRuns.NeverEvicts | src/stores/memory.rs:60-67 | Without a configuration, or at a frequency of zero or less, no run ever drops anything by eviction |
| HashMapRuns.LastWriterAgreement | src/stores/memory.rs:112-156 | In every interleaving of inserts, removes, evictions and split reads the map is a submap of the latest inserts not since removed |
| HashMapRuns.SizeBound | src/stores/memory.rs:134-144 | With frequency at least 1, in every interleaving the map exceeds `max_items` by no more than the `set` calls still to evict |
| HashMapRuns.WriteLostExactly | src/stores/memory.rs:121-126 | After any run, an insertion can be lost, other than to expiry, eviction, removal or a later insertion, if and only if a `get` has yet to delete under its key and the entry is unexpired |
| HashMapRuns.LookupsAreIdeal | src/stores/memory.rs:112-132 | In any interleaving without an insertion over a due delete, a lookup answers as a store that never deletes and filters by expiry, but for evictions |
| HashMapRuns.LookupsAreIdealWithoutEviction | src/stores/memory.rs:112-132 | With eviction off, without that exception |
| HashMapRuns.SplitGetLosesWrite | src/stores/memory.rs:121-126 | A `get` can delete an unexpired entry written between its two sections |
| HashMapRuns.LazyDeletionInvisible | src/stores/memory.rs:112-132 | Under a clock that does not run backwards, deleting on read cannot be observed: every `get` answers as a store that never deletes and filters by expiry |
| HashMapRuns.BackwardClockReveals | src/stores/memory.rs:120-126 | Setting the clock back once makes the difference visible |
| RedisStores.CalculateTtlSeconds | src/stores/redis.rs:87-93 | The ttl is the remaining whole seconds, and at least one |
| RedisStores.RedisStore.Get | src/stores/redis.rs:106-152 | A live entry with its metadata; an expired one is a miss and schedules one delete, unless expiration is disabled; unreadable metadata and failures are errors |
| RedisStores.AnswersExactly | src/stores/redis.rs:110-151 | A read misses exactly when the cell is gone or expired, spawns a delete exactly in the second case with expiration on, fails exactly when the cell's metadata cannot be read, and otherwise answers the cell's own data |
| RedisStores.RedisStore.Set | src/stores/redis.rs:154-189 | Refuses typed entries; otherwise writes one key, with a deadline unless expiration is disabled |
| RedisStores.RedisStore.Remove | src/stores/redis.rs:191-204 | Exactly the named keys are gone; no keys need no connection |
| RedisStores.RedisStore.RunDelete | src/stores/redis.rs:135-138 | A scheduled delete removes its key as it then is |
| RedisStores.VisibleExactly | src/stores/redis.rs:128-148 | With expiration on, an entry left alone is returned, unchanged, at exactly the times before the earlier of its deadline and its expiry |
| RedisStores.VisibilityBounds | src/stores/redis.rs:87-93 | That time is never after `stale_until` and less than a second before it; it is `stale_until` if and only if under a second remained or the write was late by what truncation took off |
| RedisStores.PersistsWithoutExpiration | src/stores/redis.rs:173-178 | With expiration disabled an entry left alone is always returned |
| RedisRuns.DeleteSpawnsExactly | src/stores/redis.rs:128-139 | A read of a written cell can spawn a delete at some time if and only if its deadline lies beyond the entry's expiry |
| RedisRuns.TimelyWritesSpawnNoDelete | src/stores/redis.rs:132-139 | In a run whose writes under a key all have their deadline by the entry's expiry, no delete of that key is ever due |
| RedisRuns.NoDeleteWithoutExpiration | src/stores/redis.rs:132-142 | With expiration disabled no delete is ever due |
| RedisRuns.WriteLostExactly | src/stores/redis.rs:132-139 | After any run, a write can be lost, other than to expiry, removal or a later write, if and only if a delete of its key is due and the entry is unexpired |
| RedisRuns.LateDeleteLosesEntry | src/stores/redis.rs:132-139 | The delete spawned by a read of an expired entry can take a newer one with it |
| TieredFlattening.Flattening | src/tiered.rs:51-172 | Any tree over distinct leaves and the flat store over its leaves give the same typed replies and errors and leave the same typed contents, deadlines included, for every sequence of operations, with unreachable leaves and evictions |
| TieredFlattening.TreeRefinesFlat | src/tiered.rs:51-172 | Any tree refines the flat typed reference over every sequence of operations |
| TieredFlattening.GetRefines | src/tiered.rs:59-114 | `get` on a tree reads its leaves in order up to the first hit and fills exactly the leaves before it |
| TieredFlattening.BackfillRefines | src/tiered.rs:75-106 | A drained backfill sets the entry in exactly the leaves of the tiers before the hit that accept it |
| TieredFlattening.SetTierRefines | src/tiered.rs:116-144 | A set through a tree sets every leaf that accepts, and fails if and only if one does not |
| TieredFlattening.RemoveRefines | src/tiered.rs:146-172 | A remove through a tree removes from every leaf that can be reached |
| TieredErrors.SetReportsFirst | src/tiered.rs:136-143 | A `set` attempts every tier, whatever the others answered, and reports the error of the first that failed, Ok only if none did |
| TieredErrors.RemoveReportsFirst | src/tiered.rs:164-171 | So does a `remove` |
| TieredRefusals.RefusedSet | src/entry.rs:212-234 | A refused value reaches exactly the memory leaves below no sub-store of serialized mode, and the `set` fails unless every sub-store is of typed mode |
| TieredRefusals.RefusedContentsExactly | src/tiered.rs:51-56 | After a `set` of a refused value a tree and its flat form differ in contents if and only if the first leaf is in memory and some sub-store of serialized mode has a memory leaf |
| TieredRefusals.RefusedRepliesExactly | src/tiered.rs:128-141 | They differ in the reply if and only if there are leaves, all in memory, and some nested store is empty |
| TieredRefusals.FlatteningNeedsSerialization | src/tiered.rs:51-56 | A nested stack whose contents differ from its flat form after a refused value |
| TieredFlattening.FlatPromotion | src/tiered.rs:64-113 | After a hit below the first leaf the leaves from the hit on are unchanged, and a repeated read is answered by the first leaf if and only if the entry was unexpired or that leaf serves expired entries |
| TieredFlattening.Promotion | src/tiered.rs:64-113 | The same for any tree: the repeated `get` gives the same typed entry from the first leaf and changes nothing |
| TieredRoundTrips.SetThenGet | src/tiered.rs:116-144 | A `get` after a `set` gives back the entry, through any tree and mix of storage modes |
| TieredRoundTrips.RemoveThenGet | src/tiered.rs:146-172 | After a `remove` no leaf holds the key, and a `get` at any later time misses |
| TieredStores.EvictingSetIsLeafSet | src/stores/memory.rs:134-144 | Whatever the in-memory store's `set` and eviction leave is a choice of drops of a memory leaf |
| TierStacks.TierStack.Get | src/tiered.rs:59-114 | The loop answers and leaves what the function over trees says |
| TierStacks.TierStack.Backfill | src/tiered.rs:75-106 | The loop fills every earlier tier and goes on past one that refuses |
| TierStacks.TierStack.Set | src/tiered.rs:116-144 | Every tier is attempted, and the first error is reported |
| TierStacks.TierStack.Remove | src/tiered.rs:146-172 | Every tier is attempted, and the first error is reported |
| Entries.ConversionPreservesMeaning | src/entry.rs:212-282 | Any chain of conversions keeps value and both timestamps, outer ones equal to embedded ones, and fails if and only if it must serialize a value the codec refuses |
| Entries.BuiltRepresents | src/swr.rs:147-159 | What the cache builds represents the entry in the mode asked for, and building fails if and only if serialization does |
| Entries.AgesPartitionTime | src/entry.rs:77-89 | Fresh, stale and expired are exclusive and exhaustive if and only if `fresh_until <= stale_until` |
| Keys.KeyIsInjective | src/utils.rs:9-11 | On colon-free namespaces two pairs share a composite key if and only if they are equal; keys may contain colons |
| Keys.CollisionExactly | src/utils.rs:9-11 | A longer namespace shares a composite key with a shorter one if and only if it extends it at a colon |

## Left out

- `MokaStore`: library code; the engine covers it as a tier that may lose entries at any time.
- serde_json: an abstract codec that may refuse to encode, round-trips, and whose metadata view agrees with the full decode.
- `Arc<dyn Any>` and several value types in one namespace: one abstract value type, so a downcast never fails.
- `MetricsStore`, the forwarding methods of `Cache`, `stats`, tracing and the texts of errors: thin wrappers or output; the two kinds of error are kept apart.
- Redis connections, URLs and pooling: a failing command is a flag.
- Cancellation, panics and `i64` overflow of timestamps: assumed not to happen.
- The 100 ms wait: a step of its own that may come at any time, so nothing is proved about its length.
- The engine's tiers are a flat list whose single operations are atomic; a nested stack, and the two lock sections of an in-memory read, are proved apart from the engine (`TieredFlattening` with backfills drained, `HashMapRuns`).
- The engine's tiers start empty, and one `SwrCache` (with its clones) has them to itself or shares them with others over disjoint keys; two caches with separate marker maps on the same key are not modelled.
- `remove` of several keys at once: modelled in the stores, not in the engine, whose `remove` passes one key (`src/swr.rs:166`).
- `join_all` in `set` and `remove` of a tree: leaf by leaf in `TieredStores` (the leaves are distinct); in the engine the tiers answer in any order. Which of several errors comes first is kept in the trees, not in the engine.
- The frequency and the random number of eviction are reals, so rounding and `NaN` of `f64` are not modelled.
- The methods of `SwrEngine` without a row (one per step of the machine) all have the contract of `Advance` for their own step.
- SwrDrainedRuns.DrainedRunsCohere: one direction, run by run, because a race need not be lost; the exact statement over all schedules is SwrBackfillRace.RaceExactly.
- SwrLossyTiers.EvictionIsLoss: for the in-memory store only; a Redis deadline or late delete is a single loss.
- HashMapRuns.SplitGetLosesWrite: one interleaving; the exact condition is HashMapRuns.WriteLostExactly.
- RedisRuns.LateDeleteLosesEntry: one order of commands; the exact condition is RedisRuns.WriteLostExactly.
- SwrAging.RetryRevivesExpired: one run, for a first tier that returns expired entries; what holds in every run is SwrProvenance.ServedAge, SwrOrigins.AgeSinceOrigin and SwrOrigins.RetryExactly.
