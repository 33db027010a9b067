# Task service: verified model

A Dafny model of the task service: a CRUD service over a PostgreSQL table with a
write-through in-memory cache, its HTTP router, its per-client rate limiter and its
background-job registrar. `dafny verify dfyconfig.toml` checks everything.

| file | what it models |
|---|---|
| `Prelude.dfy`, `KeyOrder.dfy` | keys, wrappers; least key, n largest keys, ascending enumeration |
| `MemoryCache.dfy` | `pkg/cache/cache.go`, one call at a time: the mutable `Cache` object, its representation invariant, repeated eviction |
| `CacheInterleaving.dfy`, `CacheAnomalies.dfy` | the same cache with every atomic access its own step and any number of threads; schedules that break the sequential contract |
| `CacheSolo.dfy`, `ServiceSolo.dfy` | the interleaved models refine the sequential ones when calls do not overlap |
| `CacheCounter.dfy`, `CacheIndex.dfy`, `CacheOverlap.dfy` | when the interleaved counter and smallest-key index can be trusted, and exactly when not |
| `Domain.dfy`, `Repository.dfy` | the task entity and lifecycle; the table, its statements, listing and counting |
| `ServiceModel.dfy`, `Lifecycle.dfy` | the service on values beside a service with no cache; whole runs of both |
| `TaskService.dfy` | repository, cache wrapper and service as heap objects with shared Task pointers, each method proved against `ServiceModel.Step` |
| `ServiceInterleaving.dfy`, `ServiceAnomalies.dfy` | concurrent clients, each repository and cache call its own step; schedules with overlapping writers |
| `Strings.dfy`, `Router.dfy` | Trim/Split/Join, pattern matching as parsing, dispatch |
| `RateLimit.dfy` | token buckets per client with idle-state collection |
| `RegistrarRun.dfy`, `RegistrarStop.dfy` | `Run` and `Stop` as interleaved goroutine steps |

## Results

**A cache nobody can see.** From the pre-filled start, every run of requests with
evictions anywhere gets the answers of a service with no cache
(`StartsTransparent`, `CacheTransparency`). What can break this is exact: a step keeps
the cache coherent iff it is not a change of a cached row whose acknowledgement is lost,
and answers differ iff a hit hides a read fault (`StepTransparent`). On the heap,
`Create` keeps coherence iff the caller's Task object is not itself cached already.

**Many clients at once.** Every task served was that id's row at some moment
(`Provenance`). Coherence can fail (`DeletedTaskIsServed`), and the reason is exact: as
long as no row changes between a client's write of it and that client's last cache
access, the cache is coherent whenever it comes to rest (`TidyCoherence`), and the first
such change makes a stale rest possible (`UndisturbedIff`). The lifecycle holds if no row
changes between another client's load and write of it (`SerialLifecycle`); a state allows
an illegal next step iff some loaded update has become illegal meanwhile (`LegalIff`).

**The cache's own bookkeeping.** Sequentially the counter is the entry count and the
first key the least key, in every run. Interleaved, an accounting equation with an
exact correction term holds in every reachable state (`Accounting`). Schedules that
remove no key while a store has yet to count or replace it never panic, and after the
first removal that does a panic is ahead on some otherwise careful continuation
(`CarefulIff`). The index is right at rest if inserting stores and lock holders take
turns (`IndexIsSmallest`); any number of overlapping stores alone settle on the right
index in every order iff at most one of them lowers it and none meets another in an
empty cache (`OverlapIff`).

**Exact conditions elsewhere.** Printing a match back gives the path iff same-named
parameters took equal segments. The collector of idle rate limiters is invisible, and
the admission bound holds, iff `ttl * rate >= burst`.

## Where the code and its comments disagree

The model follows the code.

- `pkg/cache/cache.go:36` and `:127-129` say the counter is never negative under the lock. `Store`
  takes no lock, and there are two ways below zero. A replacing store whose key was deleted in
  between re-inserts it uncounted, and the next delete takes the counter to -1
  (`CounterGoesNegative`, `QuietListPanics`). A delete can also overtake the increment of the store
  whose key it removes (`UncountedDeletePanics`). The following `List` panics in `make` with a
  negative capacity. `CarefulIff` gives the exact condition on schedules.
- `pkg/cache/cache.go:53-55` says `firstKey` points at the smallest stored key; any two overlapping
  stores of new keys below the index, or into an empty cache, can leave it at the larger one
  (`FirstKeyNotSmallest`). `IndexIsSmallest` and `OverlapIff` say when it is right.
- `internal/domain/task.go:56-62` says COMPLETE and CANCEL are terminal; `Update` is an unlocked
  read-modify-write, so two overlapping updates can cancel a completed task (`CompletedTaskIsCancelled`).
- `pkg/background/registrar.go:44-47` says only cancellation or a non-nil error ends `Run`; the
  first report of any kind does (`NilReportEndsRun`, `RunResult`).
- `pkg/http/middleware/ratelimit.go:18` says state idle for at least TTL is evicted; the comparison is
  strict, so state idle for exactly TTL is kept.

## Model

| member | source | states |
|---|---|---|
| `MemoryCache.ScanIsMinIff` | pkg/cache/cache.go:79-93 | Delete's scan with 0 as "nothing seen" finds the least key, for any visit order, iff key 0 is absent or visited last |
| `MemoryCache.ScanWithoutZero` | pkg/cache/cache.go:79-93 | without key 0 the scan yields the least key in every visit order, and 0 when nothing is left |
| `MemoryCache.DeleteKeepsWf` | pkg/cache/cache.go:70-94 | the sentinel is sound in Delete even when key 0 was stored: counter and first key stay right, exactly the one entry goes |
| `MemoryCache.StepKeepsWf` | pkg/cache/cache.go:56-219 | Store, Delete and Cleanup each keep counter = entry count and first key = least key, with the exact new contents of each |
| `MemoryCache.RunKeepsWf` | pkg/cache/cache.go:44-219 | the representation invariant holds in every state of every sequential run that starts with it, as a new cache and a pre-filled one do |
| `MemoryCache.SurvivorsAreLargest` | pkg/cache/cache.go:184-219 | after k cleanups the survivors are exactly the largest original keys, values unchanged |
| `MemoryCache.EvictionBound` | pkg/cache/cache.go:184-219 | 5^k (n_k - 4) <= 4^k (n_0 - 4), never below 4 entries, exactly 4 after at most n_0 - 4 cleanups |
| `MemoryCache.SortAscending` | pkg/cache/cache.go:204 | sorting the collected keys yields the ascending enumeration of the same keys |
| `MemoryCache.Cache.constructor` | pkg/cache/cache.go:44-51 | a new cache is empty with first key 1 and satisfies the invariant |
| `MemoryCache.Cache.Store` | pkg/cache/cache.go:56-66 | the whole new state from any old state; the invariant is kept |
| `MemoryCache.Cache.Delete` | pkg/cache/cache.go:70-94 | the whole new state, no-op for a missing key; the invariant is kept |
| `MemoryCache.Cache.ScanKeys` | pkg/cache/cache.go:81-91 | the loop computes the scan of whatever order it visits the keys in |
| `MemoryCache.Cache.Get` | pkg/cache/cache.go:97-108 | the stored value, or nothing iff the key is absent |
| `MemoryCache.Cache.List` | pkg/cache/cache.go:112-125 | panics iff the counter is negative; else every value exactly once, in some key order, with the first key |
| `MemoryCache.Cache.SetFirstKey` | pkg/cache/cache.go:145-147 | only the first key changes |
| `MemoryCache.Cache.Cleanup` | pkg/cache/cache.go:184-219 | from a right counter, keeps exactly the n - n/5 largest keys; the whole new state from any old state |
| `MemoryCache.Cache.CollectKeys` | pkg/cache/cache.go:193-200 | every key exactly once |
| `MemoryCache.Cache.RemoveFirst` | pkg/cache/cache.go:209-212 | the first n sorted keys go and the counter drops by n |
| `CacheInterleaving.NextKeepsInv` | pkg/cache/cache.go:56-219 | every atomic step of any thread keeps accounting, lock discipline and each thread's local knowledge |
| `CacheInterleaving.ReachableInv` | pkg/cache/cache.go:56-219 | so every reachable state satisfies them, for any number of threads and any schedule |
| `CacheInterleaving.Accounting` | pkg/cache/cache.go:56-94 | entries = counter + pending increments - pending decrements + uncounted re-insertions; at quiescence the counter is right iff there was no such re-insertion |
| `CacheInterleaving.ListPanicsIff` | pkg/cache/cache.go:112-116 | List's allocation panics iff entries plus pending decrements are fewer than pending increments plus re-insertions |
| `CacheInterleaving.CleanupAllocates` | pkg/cache/cache.go:188-193 | Cleanup's allocation never panics, whatever stores do meanwhile |
| `CacheInterleaving.CleanupRemoves` | pkg/cache/cache.go:209-212 | each key Cleanup removes is still present, so each decrement is earned |
| `CacheInterleaving.ListSnapshot` | pkg/cache/cache.go:110-125 | a finished List has exactly one value for every key present when it took the read lock |
| `CacheInterleaving.NoPartialCleanup` | pkg/cache/cache.go:180-219 | while a List runs no Delete or Cleanup is between its first and last step |
| `CacheInterleaving.ListedValueWasHeld` | pkg/cache/cache.go:112-125 | each value a List returns was that key's value at a moment inside that same List |
| `CacheInterleaving.StoredValueIsHeld` | pkg/cache/cache.go:56-66 | in any interleaving a store's own map access leaves its value under its key and touches no other key |
| `CacheInterleaving.LockWaits` | pkg/cache/cache.go:70-72 | Delete and Cleanup wait iff anybody holds the lock, List iff a writer does |
| `CacheInterleaving.NeverStuck` | pkg/cache/cache.go:56-219 | apart from the lock and the visits of a Range, every thread can always go on |
| `CacheInterleaving.RangeIsFree` | pkg/cache/cache.go:82-125 | a Range may visit any entry it has not visited yet |
| `CacheSolo.SoloRefines` | pkg/cache/cache.go:56-219 | a Store, Delete or Cleanup that runs undisturbed, with any visit orders and from any state, does exactly what the sequential model says |
| `CacheSolo.SoloList` | pkg/cache/cache.go:112-125 | an undisturbed List panics iff the counter is negative, else lists every entry once with its value |
| `CacheAnomalies.CounterGoesNegative` | pkg/cache/cache.go:36 | a reachable state with nothing in flight, no entries and counter -1 |
| `CacheAnomalies.ListPanics` | pkg/cache/cache.go:112-116 | from any reachable state with a negative counter and a free lock, a List run alone panics |
| `CacheAnomalies.QuietListPanics` | pkg/cache/cache.go:112-116 | such a panic is reachable with every other thread idle |
| `CacheAnomalies.UncountedDeletePanics` | pkg/cache/cache.go:56-94 | a panic with nothing re-inserted: a delete overtakes the increment of the store it undoes |
| `CacheAnomalies.FirstKeyNotSmallest` | pkg/cache/cache.go:56-66 | from any reachable state, overlapping stores of any two new keys below the index, or into an empty cache, can leave the index on the larger |
| `CacheCounter.NextKeepsCounted` | pkg/cache/cache.go:56-219 | a step that removes no key some store has yet to count or replace keeps: pending keys present, counted one store at a time, nothing re-inserted |
| `CacheCounter.CarefulIsSafe` | pkg/cache/cache.go:36 | on schedules of such steps the counter is never negative and no List or Cleanup panics |
| `CacheCounter.CarelessPanics` | pkg/cache/cache.go:56-125 | after any other removal, from any reachable state, some continuation of careful steps ends in a panic |
| `CacheCounter.CarefulIff` | pkg/cache/cache.go:56-125 | so the condition is exact, step by step |
| `CacheIndex.TurnClaim` | pkg/cache/cache.go:56-219 | each step of an inserting store, a Delete or a Cleanup hands on what it knows of keys, counter and index |
| `CacheIndex.IndexIsSmallest` | pkg/cache/cache.go:53-66 | if inserting stores and lock holders take turns and no key goes while a store is about to replace it, then in every state outside a turn the counter is exact and the index the least key, as the sequential invariant says |
| `CacheOverlap.SettlesRightIff` | pkg/cache/cache.go:56-66 | stores in flight, at any mix of places, settle on the right index in every order iff only the least key's store is going to write, and does if it must |
| `CacheOverlap.OverlapIff` | pkg/cache/cache.go:56-66 | stores overlapping from their insertion on settle right in every order iff at most one lies below the index and no two meet in an empty cache |
| `Domain.Task.New` | internal/domain/task.go:24-31 | a new task has status NEW, id 0, the given time and no update time |
| `Domain.Size` | internal/domain/task.go:84-93 | a task's size is positive, so cumulative sizes strictly grow |
| `Domain.SizeAdds` | internal/domain/task.go:84-93 | each character of name, body and status counts one, an update time 24, and a task with none of them has 88 |
| `Domain.ValidIffKnown` | internal/domain/task.go:47-54 | exactly the five documented texts are valid, which are also the ones a task may keep |
| `Domain.TransitionsAreDocumented` | internal/domain/task.go:56-82 | from each of the five statuses the code allows exactly the documented moves, and staying put |
| `Domain.UnknownStatusMoves` | internal/domain/task.go:63-82 | a row with unknown status text can only be paused or cancelled |
| `Repository.Insert` | internal/adapters/repositories/task_repository.go:33-51 | a healthy insert answers the next id of the sequence, never issued before, and adds the draft under it while ids below 2^63 are left; anything else is an error, and a rejected insert changes nothing |
| `Repository.Find` | internal/adapters/repositories/task_repository.go:59-76 | the row, NotFound iff it is missing, an error iff the statement fails |
| `Repository.Change` | internal/adapters/repositories/task_repository.go:193-217 | an update never adds or removes a row, touches no other row and no creation time; NotFound iff the row is missing; a rejected one changes nothing |
| `Repository.Remove` | internal/adapters/repositories/task_repository.go:221-237 | an applied delete removes exactly that row; NotFound iff it is missing; a rejected one changes nothing |
| `Repository.FullIsSelection` | internal/adapters/repositories/task_repository.go:78-108 | a listing holds every row of its WHERE clause once, nothing else, in strict id order |
| `Repository.ListingsReverse` | internal/adapters/repositories/task_repository.go:78-108 | the full ascending and descending listings of a filter are each other's reverse |
| `Repository.PageSize` | internal/adapters/repositories/task_repository.go:138-185 | a page has min(limit, max(0, Count - offset)) rows, and Count is the size of the chosen query's full answer |
| `Repository.PageMeaning` | internal/adapters/repositories/task_repository.go:138-185 | for every filter, told from the table alone: how many rows a page has (1000 by default), and that its i-th row is the selected one with exactly offset + i selected ids ahead of it in the chosen order |
| `Repository.Pagination` | internal/adapters/repositories/task_repository.go:138-161 | consecutive pages of any positive limit concatenate to the full listing, no gap and no overlap |
| `TaskService.TaskRepository.Store` | internal/adapters/repositories/task_repository.go:33-51 | the table moves as `Insert` says and the task object is not written |
| `TaskService.TaskRepository.Get` | internal/adapters/repositories/task_repository.go:59-76 | a fresh object equal to the row, NotFound for a missing row, an error on a fault |
| `TaskService.TaskRepository.Update` | internal/adapters/repositories/task_repository.go:193-217 | the table moves as `Change` says and the task object is not written |
| `TaskService.TaskRepository.Delete` | internal/adapters/repositories/task_repository.go:221-237 | the table moves as `Remove` says |
| `TaskService.TaskRepository.Count` | internal/adapters/repositories/task_repository.go:168-185 | the number of rows the list statement of the same filter pages through |
| `TaskService.TaskRepository.Query` | internal/adapters/repositories/task_repository.go:78-108 | select, sort and cut yield the statement's answer |
| `TaskService.TaskRepository.List` | internal/adapters/repositories/task_repository.go:110-136 | fresh objects equal to the answer's rows, in order |
| `ServiceModel.PatchFrame` | internal/services/task_service.go:103-121 | an accepted patch sets exactly the given fields and the update time, keeps id and creation time, and moves the status legally |
| `ServiceModel.PatchRefused` | internal/services/task_service.go:109-118 | a patch is accepted iff no status is given or the transition is legal; an unknown text and an illegal move have each their own error |
| `ServiceModel.UpdateAnswered` | internal/services/task_service.go:93-135 | Update's whole answer from the table and the request: read fault, missing row, unknown status, illegal move, write fault, or the row with exactly the given fields changed |
| `ServiceModel.ListIsPage` | internal/services/task_service.go:49-70 | List's page from the table alone: total, size, ascending ids, exactly offset + i smaller ids before the i-th row |
| `ServiceModel.ReadYourWrites` | internal/services/task_service.go:34-150 | a Get right after an acknowledged Create, Update or Delete answers with it, cached or not |
| `ServiceModel.StepTransparent` | internal/services/task_service.go:34-150 | per operation: same table as with no cache; same answer iff no hit hides a read fault; coherent afterwards iff no acknowledgement of a cached row's change was lost |
| `ServiceModel.CacheTransparency` | internal/services/task_service.go:34-150 | whole runs with evictions anywhere: coherent, same table and same answers as with no cache |
| `ServiceModel.StartsTransparent` | internal/services/task_cache.go:63-82 | the same from the pre-filled start, under any budget |
| `ServiceModel.LostDeleteIsServed` | internal/services/task_service.go:137-150 | a delete whose acknowledgement is lost leaves an entry that Get then serves |
| `ServiceModel.StepSuffix` | internal/services/task_service.go:93-150 | "the cache holds every row from its first key on" survives an operation iff it is not an Update that caches an id below an uncached row |
| `ServiceModel.SuffixRun` | pkg/cache/cache.go:180-219 | the suffix property holds along every run in which Update touches cached ids only |
| `ServiceModel.CachePartitionsTable` | internal/adapters/repositories/task_repository.go:93-107 | then the cached rows and the rows below the first key split the table, and their counts add up |
| `ServiceModel.FillIsLongest` | internal/services/task_cache.go:71-80 | where the fill stops is the longest newest-first prefix below the budget, both directions |
| `ServiceModel.NewestFirstFacts` | internal/services/task_cache.go:64-66 | the fill order lists table rows by strictly descending id |
| `ServiceModel.NewestFirstLength` | internal/services/task_cache.go:64-66 | the fill looks at the thousand newest rows at most |
| `ServiceModel.PrefixSizeSums` | internal/services/task_cache.go:72-75 | the cumulative size is the sum of the task sizes |
| `ServiceModel.FillEstablishes` | internal/services/task_cache.go:63-82 | however far it gets, the fill agrees with the table, is a suffix of it, and its least id is the last one stored |
| `TaskService.TaskCache.Store` | internal/services/task_cache.go:47-49 | the task sits under its own id; invariant kept |
| `TaskService.TaskCache.Get` | internal/services/task_cache.go:51-53 | the cached pointer itself |
| `TaskService.TaskCache.Delete` | internal/services/task_cache.go:59-61 | exactly that id goes; invariant kept |
| `TaskService.TaskCache.Fill` | internal/services/task_cache.go:63-82 | caches exactly the prefix that fits the wrapped 64-bit budget, first key at its last id, nothing on a list error |
| `TaskService.TaskCache.FillFrom` | internal/services/task_cache.go:71-80 | the loop stops at the unique prefix that fits |
| `TaskService.BudgetIsNineTenths` | internal/services/task_cache.go:71 | the budget is nine tenths of the threshold in bytes, modulo 2^64, rounded down |
| `TaskService.TaskService.Create` | internal/services/task_service.go:34-47 | the insert's answer; follows the model when the task is not cached yet; keeps coherence iff it is not; writes nothing but the task's id, and nothing on failure |
| `TaskService.TaskService.Get` | internal/services/task_service.go:72-91 | the cached object on a hit; on a miss a fresh object equal to the row, NotFound iff there is none, an error on a fault |
| `TaskService.TaskService.List` | internal/services/task_service.go:49-70 | the page and total asked for, told from the table alone; all objects fresh; an error iff a statement fails |
| `TaskService.TaskService.Apply` | internal/services/task_service.go:103-121 | in-place assignments and checks compute the model's patch or its error |
| `TaskService.TaskService.LoadPatched` | internal/services/task_service.go:94-121 | up to the UPDATE statement no existing object is written |
| `TaskService.TaskService.Update` | internal/services/task_service.go:93-135 | the whole answer told from the table and the request; a refused update leaves table and cache objects untouched; the returned task is fresh, so no cached or earlier-returned task is ever written |
| `TaskService.TaskService.Publish` | internal/services/task_service.go:123-132 | the UPDATE statement followed by the cache change that `PublishedCases` spells out |
| `TaskService.PublishedCases` | internal/services/task_service.go:123-132 | cached on success, evicted when the row is gone, untouched on other errors |
| `TaskService.TaskService.Delete` | internal/services/task_service.go:137-150 | success iff the row was there, NotFound otherwise; the row and the cache entry go either way; a fault is an error and leaves the cache; no Task object is written |
| `TaskService.TaskService.Cleanup` | pkg/cache/cache.go:184-219 | the eviction step of the running service is the model's, on shared pointers |
| `TaskService.CachedAlias` | internal/services/task_service.go:42-43 | giving a cached task another id always breaks coherence |
| `Lifecycle.TablesOfRun` | internal/services/task_service.go:34-150 | the table after every number of operations is the same whatever the cache holds |
| `Lifecycle.RefMoves` | internal/services/task_service.go:34-150 | one operation keeps each surviving row's id and creation time, moves its status legally, and adds rows only as fresh inserts |
| `Lifecycle.GoneForGood` | db/migrations/00001_create_tasks.sql:4 | ids are never reused: an issued id that is gone stays gone |
| `Lifecycle.Continuous` | internal/services/task_service.go:34-150 | a row seen at two moments was there in between |
| `Lifecycle.LifecyclePath` | internal/domain/task.go:56-82 | between any two moments of any run: id and creation time fixed, COMPLETE and CANCEL never left, NEW never entered, COMPLETE entered only directly from IN_PROCESS |
| `Lifecycle.BornNew` | internal/domain/task.go:24-31 | from an empty table every row was born NEW by exactly one Create and lived on from there |
| `ServiceInterleaving.NextKeepsInv` | internal/services/task_service.go:34-135 | every step of any client keeps: cached, loaded and served rows are past rows of their id, with one creation time |
| `ServiceInterleaving.PastWasHeld` | internal/services/task_service.go:34-135 | the auxiliary past is real: each of its rows was in the table at some moment |
| `ServiceInterleaving.Provenance` | internal/services/task_service.go:34-135 | in any interleaving, whatever Get serves for an id was exactly that id's row at some moment |
| `ServiceSolo.SoloRefines` | internal/services/task_service.go:34-150 | a request that runs undisturbed leaves table and cache as the sequential model says, and Get serves its answer |
| `ServiceSolo.GoneRowIsEvicted` | internal/services/task_service.go:123-128 | in any interleaving an update whose row has gone evicts the id |
| `ServiceSolo.ClientsAreFree` | internal/services/task_service.go:34-150 | no client ever waits for another |
| `ServiceInterleaving.TidyCoherence` | internal/services/task_service.go:34-150 | if no row changes between a client's write of it and that client's last cache access, each cached id no client is dirty on maps to its row, at every moment; updates may overlap from load to write |
| `ServiceInterleaving.StaleStoreSettles` | internal/services/task_service.go:123-150 | from any state in which a cache store in flight carries a row the table no longer has, some continuation comes to rest incoherent |
| `ServiceInterleaving.UndisturbedIff` | internal/services/task_service.go:34-150 | so the condition is exact, step by step |
| `ServiceInterleaving.LegalIff` | internal/services/task_service.go:93-123 | every next step moves statuses legally iff every update between load and write would still be legal |
| `ServiceInterleaving.SerialLifecycle` | internal/services/task_service.go:93-123 | if no row changes between another client's load and write of it, every status change in the table is a legal transition, even with lost acknowledgements |
| `ServiceAnomalies.DeletedTaskIsServed` | internal/services/task_service.go:123-150 | an update overlapping a delete: no writer in flight any more, yet Get serves the deleted task |
| `ServiceAnomalies.CompletedTaskIsCancelled` | internal/services/task_service.go:93-123 | two overlapping updates move a task from COMPLETE to CANCEL |
| `Strings.JoinSplit` | pkg/http/server/router.go:45-46 | joining a split string gives it back, and no piece holds a slash |
| `Strings.SplitJoin` | pkg/http/server/router.go:45-46 | splitting joined slash-free pieces gives them back |
| `Strings.TrimAround` | pkg/http/server/router.go:45-46 | Trim removes exactly the outer slashes |
| `Strings.TrimDecomposes` | pkg/http/server/router.go:45-58 | Trim takes off a prefix and a suffix of cut characters, and nothing more could go |
| `Router.MatchPattern` | pkg/http/server/router.go:37-66 | the loop decides the match predicate and returns its bindings |
| `Router.SegmentReadBack` | pkg/http/server/router.go:53-60 | a written `{name}` is read as that parameter, text not enclosed in braces as literal |
| `Router.WrittenPatternMatches` | pkg/http/server/router.go:37-66 | a pattern written from literals and `{name}` segments matches exactly the paths with as many segments and equal literals, and binds each name to the segment at its last place |
| `Router.PlainPatternMatches` | pkg/http/server/router.go:38-43 | a pattern without braces matches itself only and binds nothing |
| `Router.RenderMatches` | pkg/http/server/router.go:37-66 | print then parse: any slash-free values, non-empty at the ends, substituted into a pattern match it and come back, under any outer slashes |
| `Router.MatchRenders` | pkg/http/server/router.go:37-66 | parse then print: a match's parameters reproduce the slash-trimmed path iff same-named parameters took equal segments; distinct names suffice |
| `Router.RepeatedNameForgets` | pkg/http/server/router.go:52-59 | with a repeated name two different segments still match and the path is not recovered |
| `Router.DispatchUnique` | pkg/http/server/router.go:68-95 | the answer to a request is determined by the registrations, so no map order can change it |
| `Router.FirstRegisteredRuns` | pkg/http/server/router.go:68-81 | the first registration of the method whose pattern matches is the one that runs |
| `Router.UpperLetters` | pkg/http/server/router.go:29 | registration capitalises a to z and leaves every other character |
| `Router.Router.Register` | pkg/http/server/router.go:28-35 | the route is appended under its upper-cased method, nothing else changes |
| `Router.Router.FindRoute` | pkg/http/server/router.go:73-79 | the first matching route with its parameters, or none matches |
| `Router.Router.MatchesElsewhere` | pkg/http/server/router.go:83-93 | true iff another method's route matches, for any iteration order |
| `Router.Router.ServeHTTP` | pkg/http/server/router.go:68-95 | the first matching route of the method runs exactly once; else 405 iff another method's route matches, 404 iff none does |
| `RateLimit.Normalise` | pkg/http/middleware/ratelimit.go:27-35 | a non-positive rate switches the limiter off; otherwise the rate is as given, a burst below 1 becomes 1, and a non-positive ttl ten minutes |
| `RateLimit.ServeEffect` | pkg/http/middleware/ratelimit.go:45-53 | a request passes iff its client has a token, spends exactly one, and touches no other client |
| `RateLimit.CollectKeepsAvail` | pkg/http/middleware/ratelimit.go:84-97 | when ttl refills a bucket, collecting changes no client's tokens at any later time |
| `RateLimit.GcUnobservable` | pkg/http/middleware/ratelimit.go:71-97 | then a collecting store and one that never collects decide alike on every timed trace |
| `RateLimit.AdmissionBound` | pkg/http/middleware/ratelimit.go:26-56 | then in any window of length d a client gets at most burst + rate * d requests through, at the configured rate |
| `RateLimit.CollectorHiddenIff` | pkg/http/middleware/ratelimit.go:71-97 | the collector is unobservable iff rate * ttl >= burst, whether it may run at any time or just on its ticks |
| `RateLimit.AdmissionsBoundedIff` | pkg/http/middleware/ratelimit.go:26-56 | the admission bound holds on all traces iff rate * ttl >= burst, likewise |
| `RateLimit.Configured` | pkg/http/middleware/ratelimit.go:26-56 | both results for a configuration as given, with its defaults |
| `RateLimit.CollectorShows` | pkg/http/middleware/ratelimit.go:84-97 | otherwise, on a trace with every tick of the collector, two full bursts around the second tick both pass with it, and do not without it |
| `RateLimit.AskOutcome` | pkg/http/middleware/ratelimit.go:45-53 | n requests at one instant all pass iff n tokens are there, and then spend exactly n |
| `RateLimit.RefillExact` | pkg/http/middleware/ratelimit.go:40-53 | after a burst that empties the bucket at t, k requests at u all pass iff k <= burst and k <= rate * (u - t) |
| `RateLimit.NextAdmittedIff` | pkg/http/middleware/ratelimit.go:40-53 | after such a burst a lone next request at u passes iff rate * (u - t) >= 1 |
| `RateLimit.IpLimiterStore.Get` | pkg/http/middleware/ratelimit.go:71-82 | the client's bucket, made full if missing, marked as seen |
| `RateLimit.IpLimiterStore.Admit` | pkg/http/middleware/ratelimit.go:45-53 | a new client passes; a known one iff its tokens plus rate times the time since amount to one; the new store is that of the trace model |
| `RateLimit.IpLimiterStore.Gc` | pkg/http/middleware/ratelimit.go:84-97 | exactly the buckets idle for longer than ttl go, for any visit order, and the others stay as they are |
| `RegistrarRun.NextKeepsInv` | pkg/background/registrar.go:51-71 | every step keeps: channel = sends not yet received in order, sends + unreported jobs = snapshot |
| `RegistrarRun.RunStartsAll` | pkg/background/registrar.go:51-64 | Run takes every job registered up to its snapshot and none registered later, and has started each once it waits or has returned |
| `RegistrarRun.Occupancy` | pkg/background/registrar.go:56-64 | queued + received + still to come = channel capacity = snapshot size, in every reachable state |
| `RegistrarRun.SendNeverBlocks` | pkg/background/registrar.go:56-64 | a finished job can always send, before and after Run returned |
| `RegistrarRun.CapacityIsNeeded` | pkg/background/registrar.go:58 | for every job list a state is reachable in which Run has left and every slot is in use |
| `RegistrarRun.RunResult` | pkg/background/registrar.go:66-71 | Run returns nil on cancellation, else the first report, nil or not; later reports stay queued in order |
| `RegistrarRun.RunWaitsIff` | pkg/background/registrar.go:66-71 | the cancellation arm is open iff cancelled, the result arm iff some job has reported; so Run waits iff neither |
| `RegistrarRun.JobsAreFree` | pkg/background/registrar.go:51-64 | jobs may be registered and cancelled at any time and return anything; starting them never waits |
| `RegistrarRun.NilReportEndsRun` | pkg/background/registrar.go:66-71 | a nil report ends Run with nil, uncancelled, while another job works on |
| `RegistrarStop.NextKeepsInv` | pkg/background/registrar.go:76-93 | every step keeps: wait count = handlers not done, each error slot holds its own handler's result |
| `RegistrarStop.StopJoinsAll` | pkg/background/registrar.go:76-93 | in every run that returns, every handler registered up to the snapshot returned exactly once, no other ran, and the joined errors are their non-nil results in registration order |
| `RegistrarStop.HandlersAreFree` | pkg/background/registrar.go:76-89 | handlers may return anything, and no step but the join ever waits |
| `RegistrarStop.JoinIsOrderFree` | pkg/background/registrar.go:76-93 | runs in which the handlers return alike join alike, whatever the completion order |
| `RegistrarStop.JoinWaitsForAll` | pkg/background/registrar.go:90 | Wait passes iff every handler is done |
| `RegistrarStop.ErrorPlace` | pkg/background/registrar.go:92 | the join has one error per failed handler, each at the number of failed handlers registered before it |
| `RegistrarStop.NoErrors` | pkg/background/registrar.go:92 | Stop answers nil iff every handler did |

## Left out

- PostgreSQL, pgx, timeouts, row scanning and timestamp precision: the table is a map with fresh increasing ids, a statement may be rejected or applied with its acknowledgement lost, and time is an exact value.
- Arguments above the signed 64-bit range that the driver would refuse: limits, offsets and ids are unbounded naturals; ids the table issues stop at 2^63 - 1.
- `float32(memoryLimitMB) * 0.9`, `runtime.MemStats` and the monitor's ticker: the threshold is a given number and Cleanup may fire at any time.
- Signed key types for the cache: no code instantiates them.
- Domain.Size: the two `unsafe.Sizeof` values are fixed positive constants, and lengths count characters, not bytes.
- TaskService.TaskCache.Fill: the running total of sizes is not wrapped at 64 bits, since all listed tasks are in memory at once.
- Router.MatchPattern: a nil and an empty parameter map are one value, as every caller treats them.
- Router.Router.Register: `strings.ToUpper` is modelled for ASCII letters only; patterns and paths are character sequences.
- CacheIndex.IndexIsSmallest: taking turns is sufficient, not necessary; `OverlapIff` is exact for stores among themselves, but no exact condition is given for stores that overlap a Delete or a Cleanup.
- CacheInterleaving.ListedValueWasHeld: a Range visit reads the key's current value; `sync.Map` documents a wider choice among values held during the Range. Lock fairness is not modelled, only safety.
- TaskService.TaskService.List: under concurrency Count and List are separate statements; the interleaved model covers Create, Get, Update and Delete only.
- The internals of `golang.org/x/time/rate`: the standard token bucket over reals is assumed; lookup and Allow happen at one instant.
- `clientIP` and `trimSpace`: the client is an opaque key.
- The cache's `Len`, `FirstKey` and `CleanupStartMB`, `NewTaskCache`'s defaults, the registrar's mutex: plain accessors, or atomic steps of the models.
- Logging, request validation and JSON, HTTP handlers, body limit, server options, configuration, wiring, Swagger, scripts and deployment: plumbing with easy members only.
