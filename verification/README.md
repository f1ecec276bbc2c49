# GPTCache eviction and consistency, in Dafny

This project models the parts of GPTCache in which several data structures have to stay in
step, and proves what their designs promise over all inputs and all runs.

**Eviction.** `GDSFCache` keeps resident keys, frequencies, priorities, a lazy heap with stale
entries and an aging value `L`. `Heapq` implements the binary heap. `GdsfCache` is the mutable
class, loop by loop, equal to the value-level operations of `GdsfModel`, in which a pop is one
step: the least live entry wins. `GdsfPaths` breaks every operation into small moves, on which
the properties of runs rest:

- what each operation leaves behind, with the documented priority spelled out (`GdsfOperations`);
- the lazy heap refines "evict a resident of least current priority" (`Eviction`);
- an overflow reports and evicts exactly the `clean_size` lowest residents in order (`Eviction`);
- `L` never falls and no heap entry, live or stale, is below it (`Inflation`);
- an entry nobody touches is evicted within `maxsize * (floor((P - L) / c) + 1)` evictions
  (`Aging`), also when seen through the data manager, with `c = 1` (`ManagerAging`);
- multiplying every cost by a positive factor changes no victim (`Scaling`);
- insertions are conserved and heap work is amortised (`Accounting`);
- frequencies count reads (`Frequency`), and the no-aging ablation is cost-weighted LFU
  (`Ablation`).

**The data manager.** `SqlStorage` is the four-table store with soft deletion, `ManagerModel` the
three stores as one state with the eviction callback in the middle of an import, `DataManager` the
mutable classes, and `PolicyIndex` an eviction index for *any* policy. Main results: the stores
agree after every request of every run and, with the ids still to be put, at every call-back; rows
never exceed `maxsize + maxsize / 9`; live entries read the same across marks, sweeps and rebuilds.
`ManagerPuts` says what imports, start-up and the callback leave behind, part by part, for any policy.
`GdsfPolicy` plugs GDSF in as such a policy; `GdsfRefinement` shows every run of the manager to be the
GDSF cache's run of the corresponding sets and reads, so the eviction results carry over.

**The request path.** `Ranking` and `Serving` are the lookup of `adapt` on one `SSDataManager`.
`Sessions` plays whole requests (ask, on a miss fetch and save, bulk imports, ended sessions) and
proves session isolation over every run of them; `Requests` says what each of them answers, records,
touches and saves in terms of the stored entries alone. `Chain` is `adapt` over a chain of exact-match
caches, shown transparent under arbitrary evictions.

**Self-contained pieces.** `Replay` (the benchmark loop and its books), `TemplateValues` and
`TemplateEndings` (recovering field values from a formatted template), `SequenceMatch` and
`SequencePairs` (the weighted score and the turns it compares).

Check everything with `dafny verify dfyconfig.toml`.

## Conventions

- Floats are exact reals; rounding is not modelled.
- `cachetools.Cache` (version 5.5.2, `Dockerfile:16`) and `heapq` are modelled from their
  documented behaviour: `__setitem__` rejects a value larger than `maxsize`, otherwise pops through
  the instance's own `popitem` while a new or growing value does not fit, then stores it.
- Python exceptions are results: `None`, `false` or a constructor named after the exception.
- `past` in `GdsfModel` is a ledger (victims, insertions, hits, ...) that no operation reads; in the
  class it is a ghost field.
- Ids handed out by the database are inputs, only fresh against the rows the table holds now, so an
  id freed by a sweep may come back.
- Embedding, similarity score, language model, preprocessing and conversion are uninterpreted
  functions.

## Where the code falls short of its intention

Each is kept as it is in the code, with the exact condition proved and, in `Shortcomings`, an input
that shows it.

- `popitem_wrapper` loses the keys it has already popped when `popitem` raises half-way: a batch
  reports what it evicted if and only if the cache holds a full batch or nothing
  (`Eviction.BatchLosesNothingIff`); at an overflow, if and only if `clean_size <= maxsize`
  (`Eviction.OverflowReportsIff`, `Shortcomings.EvictedKeyIsLost`). With a larger clean size the data
  manager's stores drift apart (`ManagerModel.OverflowAgreesIff`, `Shortcomings.StoresDrift`).
- With `clean_size == 0` the overflow loop never ends (`Eviction.OverflowLoopEndsIff`,
  `Shortcomings.SecondSetSpins`), and the default is 0 exactly for `maxsize < 5`
  (`Eviction.DefaultCleanSizeIsZeroIff`).
- A negative cost pushes below the aging value, which can then fall (`Inflation.PushKeepsFloorIff`,
  `Shortcomings.AgingValueFalls`).
- After a hit the session is recorded for the *last* candidate with the served answer. It is recorded
  for the entry it was served if and only if no other candidate has that answer
  (`Serving.ServedIsKnownIff`); where one has, repeating the request serves the same entry again, and
  only there (`Serving.ServedAgainIff`, `Shortcomings.ServedTwiceRunning`).
- `SequenceMatchEvaluation.range` declares `[0, 4]`, which scores respect if and only if a weight is
  left out or the weights sum to at most 1 (`SequenceMatch.DeclaredRangeIff`,
  `Shortcomings.ScoreOutsideRange`).
- Template extraction inverts formatting if and only if the template ends in a field and each next
  literal is first met at its true position (`TemplateEndings.RoundTripIff`,
  `Shortcomings.SpaceInValue`). A template that ends in a literal never gives its values back: the
  text formatted from it raises IndexError, unless an empty value follows an empty literal, and then
  exactly when its literals still occur one after the other (`TemplateEndings.LiteralEndedRaisesIff`,
  `Shortcomings.TellMePlease`, `Shortcomings.EmptyBeforePlease`); on arbitrary text and templates
  `TemplateEndings.IndexErrorIff` says when.

## Model

| member | source | states |
|---|---|---|
| Heapq.RootIsLeast | gptcache/manager/eviction/gdsf.py:74 | the root of a heap is below every entry |
| Heapq.MoveTowardsRoot | gptcache/manager/eviction/gdsf.py:51 | sifting an appended entry up restores the heap and keeps the entries as a multiset |
| Heapq.Settle | gptcache/manager/eviction/gdsf.py:74 | letting a misplaced root sink to a leaf and rise again restores the heap and keeps the entries |
| Heapq.HeapPush | gptcache/manager/eviction/gdsf.py:51 | a push keeps the heap order and adds exactly its entry |
| Heapq.HeapPop | gptcache/manager/eviction/gdsf.py:74 | a pop removes exactly a least entry and leaves a heap |
| GdsfModel.LiveWhileResident | gptcache/manager/eviction/gdsf.py:71-80 | a live heap entry exists if and only if something is resident, so KeyError means an empty cache |
| GdsfModel.Victim | gptcache/manager/eviction/gdsf.py:73-75 | the victim is a resident whose live entry is below every live entry |
| GdsfModel.ForgetValid | gptcache/manager/eviction/gdsf.py:66-69 | deleting a key keeps the cache invariant although its heap entries stay behind |
| GdsfModel.SurvivorRepresented | gptcache/manager/eviction/gdsf.py:73-79 | everything a pop throws away, every survivor still has a live entry in what is left of the heap |
| GdsfModel.EvictValid | gptcache/manager/eviction/gdsf.py:71-79 | an eviction keeps the invariant and removes one resident |
| GdsfModel.PopManySize | gptcache/manager/eviction/memory_cache.py:9-18 | n pops leave the residents less n, and none when there are fewer than n |
| GdsfModel.PopBatch | gptcache/manager/eviction/memory_cache.py:9-18 | the wrapped popitem keeps the invariant and makes progress when the clean size is positive |
| GdsfModel.MakeRoom | gptcache/manager/eviction/gdsf.py:53-54 | the overflow loop terminates with room for the value, for any sizes and either popitem |
| GdsfModel.StorePushValid | gptcache/manager/eviction/gdsf.py:53-57 | storing and pushing a value that fits keeps the invariant, so the total size never exceeds maxsize |
| GdsfModel.SetItem | gptcache/manager/eviction/gdsf.py:53-57 | a set that returns keeps the invariant and ends with the key resident, unless the value is larger than the cache |
| GdsfModel.TouchPushValid | gptcache/manager/eviction/gdsf.py:59-64 | a hit keeps the invariant |
| GdsfModel.DelItem | gptcache/manager/eviction/gdsf.py:66-69 | a deletion keeps the invariant and removes the key |
| GdsfModel.Run | gptcache/manager/eviction/gdsf.py:45-80 | every run of set, get, del and popitem keeps the invariant |
| GdsfModel.TotalUpdate | gptcache/manager/eviction/gdsf.py:53-54 | the total size after a store differs by the size difference of the one value |
| GdsfCache.DropStale | gptcache/manager/eviction/gdsf.py:73-75 | skipping a stale least entry keeps the skipped entries stale and below the rest |
| GdsfCache.FirstLiveWins | gptcache/manager/eviction/gdsf.py:73-79 | the first live entry the loop meets is the victim, and exactly the entries below it are gone |
| GdsfCache.AllStaleMeansEmpty | gptcache/manager/eviction/gdsf.py:73-80 | a heap that runs out without a live entry means an empty cache |
| GdsfCache.GDSFCache.constructor | gptcache/manager/eviction/gdsf.py:30-36 | a new cache is the empty one |
| GdsfCache.GDSFCache.PushEntry | gptcache/manager/eviction/gdsf.py:45-51 | `_push` equals the push of the state machine, on a real heap |
| GdsfCache.GDSFCache.SetItem | gptcache/manager/eviction/gdsf.py:53-57 | `__setitem__`, base class included, equals the state machine's wherever it returns; false exactly for a value that is too large |
| GdsfCache.GDSFCache.MakeRoom | gptcache/manager/eviction/gdsf.py:53-54 | the overflow loop terminates and equals the state machine's |
| GdsfCache.GDSFCache.GetItem | gptcache/manager/eviction/gdsf.py:59-64 | `__getitem__` returns the value and touches it, or changes nothing |
| GdsfCache.GDSFCache.DelItem | gptcache/manager/eviction/gdsf.py:66-69 | `__delitem__` removes the key, or reports KeyError and changes nothing |
| GdsfCache.GDSFCache.PopOne | gptcache/manager/eviction/gdsf.py:71-80 | the lazy-heap loop equals the one-step pop: least live entry out, aging value set, KeyError exactly when empty |
| GdsfCache.GDSFCache.PopBatch | gptcache/manager/eviction/memory_cache.py:9-18 | the wrapper pops up to its clean size and calls on_evict once, with nothing if a KeyError interrupted it |
| GdsfPaths.StepPath | gptcache/manager/eviction/gdsf.py:45-80 | every operation, overflow included, is a path of evictions, drains, reports and at most its own put, hit or drop |
| GdsfPaths.RunPath | gptcache/manager/eviction/gdsf.py:45-80 | so is every run |
| GdsfOperations.PushEffect | gptcache/manager/eviction/gdsf.py:45-51 | a push prices the key at L + frequency * cost / size (per variant), adds one entry newer than all others, and changes nothing else |
| GdsfOperations.ReadEffect | gptcache/manager/eviction/gdsf.py:59-64 | a hit raises the frequency by one and prices the key anew at the present L; a miss changes nothing |
| GdsfOperations.DeletionEffect | gptcache/manager/eviction/gdsf.py:66-69 | a deletion takes the key out of every map and leaves the heap and L |
| GdsfOperations.SetEffect | gptcache/manager/eviction/gdsf.py:53-57 | a set evicts nothing if the value fits as it is; the key keeps its frequency if it stayed and gets 1 otherwise, is priced at the L those evictions left, and every other resident is untouched |
| GdsfOperations.RoomIsMinimal | gptcache/manager/eviction/gdsf.py:53-54 | before every pop of the overflow loop there was no room |
| GdsfOperations.MoreReadsSurvive | gptcache/manager/eviction/gdsf.py:10-19 | of two residents of the same value priced at the same L, the one with more reads is not the victim |
| GdsfOperations.FirstVictimIsLeastRead | gptcache/manager/eviction/gdsf.py:10-19 | the first victim of a run is never read more often than another resident of the same value |
| GdsfOperations.RunPrices | gptcache/manager/eviction/gdsf.py:45-51 | in every run a resident's priority is frequency * cost / size above an L of the past |
| GdsfOperations.ReadEntryStays | gptcache/manager/eviction/gdsf.py:59-80 | two placeholders, the first read once: the second is the victim |
| Eviction.VictimHasLeastPriority | gptcache/manager/eviction/gdsf.py:71-80 | popitem takes a resident of minimum current priority, despite stale and duplicate heap entries |
| Eviction.TiesGoToTheOldestPush | gptcache/manager/eviction/gdsf.py:51 | among equal priorities the earliest push goes first |
| Eviction.EvictTakesVictim | gptcache/manager/eviction/gdsf.py:75-79 | an eviction removes the victim from all three maps, logs it and leaves L at its priority (0 without aging) |
| Eviction.PopsTakeTheLowest | gptcache/manager/eviction/memory_cache.py:13 | n pops take exactly the n lowest residents in ascending order and leave L at the last one's priority |
| Eviction.BatchReports | gptcache/manager/eviction/memory_cache.py:9-18 | a full batch reports its victims; a short one empties the cache and reports an empty list |
| Eviction.BatchLosesNothingIff | gptcache/manager/eviction/memory_cache.py:12-16 | a batch reports exactly what it evicted if and only if a full batch (or nothing) is resident |
| Eviction.OverflowIsOneBatch | gptcache/manager/eviction/memory_cache.py:9-18 | with unit sizes an overflow is a single batch |
| Eviction.OverflowEvictsTheLowest | gptcache/manager/eviction/memory_cache.py:58-68 | inserting into a full cache reports and evicts the clean_size lowest, never the new key, survivors keep their priority and are at or above L, and the new priority builds on that L |
| Eviction.OverflowReportsIff | gptcache/manager/eviction/memory_cache.py:9-18 | an overflow loses no key if and only if the clean size is at most maxsize |
| Eviction.DefaultCleanSizeIsZeroIff | gptcache/manager/eviction/manager.py:27-28 | the default clean size is a fifth of maxsize rounded down, so 0 if and only if maxsize is below 5 |
| Eviction.OverflowLoopEndsIff | gptcache/manager/eviction/memory_cache.py:13 | some number of wrapped pops makes room if and only if the clean size is positive or there is room already |
| Inflation.PushKeepsFloorIff | gptcache/manager/eviction/gdsf.py:45-51 | a push stays above L if and only if its cost is not negative |
| Inflation.MoveFloored | gptcache/manager/eviction/gdsf.py:45-80 | every move keeps all heap entries at or above L and never lowers L |
| Inflation.RunFloored | gptcache/manager/eviction/gdsf.py:71-80 | so does every run with non-negative costs, in all three variants |
| Aging.EvictLowers | gptcache/manager/eviction/gdsf.py:71-80 | evicting another entry uses up at least one unit of the watched entry's slack |
| Aging.CalmMove | gptcache/manager/eviction/gdsf.py:45-69 | puts, hits and drops of other entries never add to the slack |
| Aging.AgingPath | gptcache/manager/eviction/gdsf.py:45-80 | along any path that leaves it alone an entry is among the first slack + 1 victims |
| Aging.Grace | gptcache/manager/eviction/gdsf.py:17-19 | the grace plus one is at most n * (floor((P - L) / c) + 1) |
| Aging.UntouchedEntryAgesOut | gptcache/manager/eviction/gdsf.py:17-19 | in every run an entry that is not touched any more is among the first grace + 1 victims |
| Aging.EveryEntryAgesOut | gptcache/manager/eviction/gdsf.py:17-19 | the same for everything any run from the empty cache leaves resident |
| Scaling.ScaledVictim | gptcache/manager/eviction/gdsf.py:71-80 | scaling all costs leaves the victim the same, ties included |
| Scaling.PushScales | gptcache/manager/eviction/gdsf.py:45-51 | a push commutes with scaling |
| Scaling.EvictScales | gptcache/manager/eviction/gdsf.py:71-80 | an eviction commutes with scaling, stale entries skipped included |
| Scaling.SetScales | gptcache/manager/eviction/gdsf.py:53-57 | a set with its overflow commutes with scaling |
| Scaling.RunScales | gptcache/manager/data_manager.py:28-30 | the unit of cost does not matter: a scaled run has scaled priorities and L, and the same victims, reports, residents and counts |
| Frequency.FrequencyCountsReads | gptcache/manager/eviction/gdsf.py:53-69 | while a key stays resident its frequency grows by exactly its reads, not by overwrites |
| Accounting.RunBalanced | gptcache/manager/eviction/gdsf.py:45-80 | insertions are residents plus victims plus deletions as multisets; pushes are heap entries plus victims plus skips |
| Accounting.HeapCoversResidents | gptcache/manager/eviction/gdsf.py:32 | the heap has at least one entry per resident |
| Accounting.SkipsArePaidFor | gptcache/manager/eviction/gdsf.py:25-27 | over any run, stale entries skipped are at most hits plus overwrites plus deletions |
| Accounting.RunInformed | gptcache/manager/eviction/memory_cache.py:58-68 | over any run of puts and gets, on_evict is told every victim once, in order |
| Accounting.InsertedAreResidentOrReported | gptcache/manager/eviction/memory_cache.py:9-18 | conservation: over any run of puts and gets, insertions are the residents plus the keys passed to on_evict, as multisets |
| Ablation.RunAgeless | benchmarks/ablation.py:35-47 | without aging L is 0 between operations and priorities are frequency times cost over size |
| Ablation.EveryVictimIsLeast | benchmarks/ablation.py:35-47 | every victim of every run, inside a batch or not, minimises that product, and among residents of equal positive cost per size it is least frequently used |
| Ablation.RunEvictsLeastProduct | benchmarks/ablation.py:9 | so is whatever goes next after a run |
| MemoryEviction.Stored | gptcache/manager/eviction/memory_cache.py:67-68 | put stores the longest prefix with a cost and a fitting value |
| MemoryEviction.PutStores | gptcache/manager/eviction/memory_cache.py:67-68 | an entry put and still resident has the cost given for it, or the placeholder |
| MemoryEviction.StoredWhenAllFit | gptcache/manager/eviction/memory_cache.py:67-68 | when every value fits, as many entries are stored as there are costs |
| MemoryEviction.MemoryCacheEviction.constructor | gptcache/manager/eviction/memory_cache.py:36-58 | a GDSF cache with popitem wrapped, for any clean size |
| MemoryEviction.MemoryCacheEviction.Put | gptcache/manager/eviction/memory_cache.py:60-68 | a put that returns is a run of sets over that prefix, then IndexError, ValueError or nothing |
| MemoryEviction.MemoryCacheEviction.Get | gptcache/manager/eviction/memory_cache.py:70-71 | get touches a resident and ignores a missing key |
| PolicyIndex.VictimsLeave | gptcache/manager/eviction/memory_cache.py:9-18 | under any policy n pops remove exactly their distinct victims, n of them if there are as many |
| PolicyIndex.PopManyTells | gptcache/manager/eviction/memory_cache.py:13 | the history grows by the victims in order |
| PolicyIndex.EvictionIndex.PopBatch | gptcache/manager/eviction/memory_cache.py:9-18 | the wrapper reports a full batch, or nothing if the index ran out |
| SqlStorage.InsertReadsBack | gptcache/manager/scalar_data/sql_storage.py:225-267 | a fresh question reads back as inserted, with its dependents and session, and no other entry changes |
| SqlStorage.MarkHides | gptcache/manager/scalar_data/sql_storage.py:330-335 | a mark hides exactly the marked questions and changes no other entry |
| SqlStorage.SweepRemovesTheDead | gptcache/manager/scalar_data/sql_storage.py:337-351 | a sweep removes exactly the soft-deleted questions and their rows and leaves no dangling row |
| SqlStorage.SweepKeepsLiveEntries | gptcache/manager/scalar_data/sql_storage.py:337-351 | a live entry reads the same before and after a sweep |
| SqlStorage.GetData | gptcache/manager/scalar_data/sql_storage.py:277-322 | an id is readable if and only if its question is live |
| SqlStorage.SessionsAfterAdd | gptcache/manager/scalar_data/sql_storage.py:363-371 | adding a session row adds that session to that question alone |
| SqlStorage.AddSessionAddsRow | gptcache/manager/scalar_data/sql_storage.py:363-371 | one new row with the question id, the session and the question asked |
| SqlStorage.InsertAddsRow | gptcache/manager/scalar_data/sql_storage.py:258-266 | an entry saved for a session adds one row with its own question |
| SqlStorage.DropForgetsExactly | gptcache/manager/scalar_data/sql_storage.py:373-385 | dropping a session removes exactly its rows |
| DataManager.AnswerCost | gptcache/manager/data_manager.py:25-41 | the text length, at least 1 |
| DataManager.LengthAdds | gptcache/manager/data_manager.py:36-40 | the text length adds up over the answers |
| DataManager.SQLStorage.InsertAll | gptcache/manager/scalar_data/sql_storage.py:225-275 | the insert loops equal the batch insert of the tables |
| DataManager.SQLStorage.GetIds | gptcache/manager/scalar_data/sql_storage.py:324-328 | the live, or the soft-deleted, ids, each once |
| DataManager.EvictionManager.CheckEvict | gptcache/manager/eviction_manager.py:21-29 | true exactly when a sweep is due; ZeroDivisionError exactly on an empty table |
| DataManager.EvictionManager.Delete | gptcache/manager/eviction_manager.py:31-37 | the sweep over both stores, with the periodic rebuild |
| DataManager.EvictionManager.Rebuild | gptcache/manager/eviction_manager.py:39-43 | the rebuild over both stores |
| DataManager.SSDataManager.constructor | gptcache/manager/data_manager.py:242-266 | starting on existing stores: every live row is put at cost 1, what is still live reads as before, what is gone was popped, and if the live rows fit nothing has changed |
| DataManager.SSDataManager.Clear | gptcache/manager/data_manager.py:268-271 | the callback equals mark, check and sweep |
| DataManager.SSDataManager.PutId | gptcache/manager/data_manager.py:357-359 | one put, with the callback inside its overflow loop, keeps agreement up to the ids still to be put |
| DataManager.SSDataManager.ImportData | gptcache/manager/data_manager.py:319-359 | an import keeps the stores in agreement; every row still live reads as its own question, dependencies, answers in order, normalised embedding and session; the policy hears each row's text length, at least 1; or ParamError changes nothing |
| DataManager.SSDataManager.GetScalarData | gptcache/manager/data_manager.py:361-385 | an entry is withheld from exactly the sessions recorded for it |
| DataManager.SSDataManager.HitCacheCallback | gptcache/manager/data_manager.py:387-388 | a hit only touches the eviction index |
| DataManager.SSDataManager.AddSessionTo | gptcache/manager/data_manager.py:399-400 | a join adds one session row and keeps agreement |
| DataManager.SSDataManager.DeleteSession | gptcache/manager/data_manager.py:410-412 | a drop keeps agreement |
| ManagerModel.NoSweepMeansBounded | gptcache/manager/eviction_manager.py:21-29 | no sweep is due if and only if at most 5000 rows, and at most a tenth, are soft-deleted |
| ManagerModel.RowsWithinANinth | gptcache/manager/eviction_manager.py:11-29 | then the rows are at most maxsize plus a ninth of it |
| ManagerModel.SweepAgrees | gptcache/manager/eviction_manager.py:31-43 | a sweep keeps agreement and leaves no soft-deleted row and no vector without a live row |
| ManagerModel.RebuildAddsNothing | gptcache/manager/eviction_manager.py:36-43 | after a sweep the rebuild changes nothing but the counter |
| ManagerModel.ClearAgrees | gptcache/manager/data_manager.py:268-271 | the callback in mid-import hides exactly the reported keys, keeps agreement and the bound, and changes no survivor |
| ManagerModel.RowsExist | gptcache/manager/eviction_manager.py:26 | while an id waits to be put the table is not empty, so the rate never divides by zero |
| ManagerPuts.PutOneTells | gptcache/manager/eviction/memory_cache.py:9-18 | a put tells the policy; at a full index, and only there, clean_size keys are evicted first and leave the live rows |
| ManagerPuts.PutAllTells | gptcache/manager/data_manager.py:357-359 | many puts tell the policy exactly these ids and costs in order, and the live rows shrink by what was popped |
| ManagerPuts.ImportLeaves | gptcache/manager/data_manager.py:350-359 | what an import leaves, part by part, for any policy |
| ManagerPuts.StartLeaves | gptcache/manager/data_manager.py:264-266 | what start-up leaves, for any policy |
| ManagerPuts.ClearSweepsIff | gptcache/manager/data_manager.py:268-271 | the callback sweeps if and only if more than 5000 rows or more than a tenth are then marked, counts sweeps up to five, and never touches the index |
| ManagerModel.OverflowAgrees | gptcache/manager/eviction/memory_cache.py:9-18 | an overflow removes clean_size keys and keeps agreement, the bound and every survivor |
| ManagerModel.OverflowAgreesIff | gptcache/manager/eviction/memory_cache.py:12-16 | an overflow keeps the stores in agreement if and only if the clean size is at most maxsize |
| ManagerModel.PutAllKeeps | gptcache/manager/data_manager.py:357-359 | putting any number of ids, overflows included, keeps the bound and every live entry |
| ManagerModel.InsertedAgrees | gptcache/manager/data_manager.py:350-356 | after the rows and vectors are in, the stores agree up to the ids to be put |
| ManagerModel.InsertedReads | gptcache/manager/data_manager.py:350 | every imported row reads back as given, every older one as before |
| ManagerModel.ImportKeeps | gptcache/manager/data_manager.py:350-359 | a completed import leaves agreement, the bound, and every live entry as it was or as imported |
| ManagerModel.Start | gptcache/manager/data_manager.py:264-266 | putting the live ids into an empty index establishes agreement |
| ManagerModel.RunKeeps | gptcache/manager/data_manager.py:319-412 | in every run: live ids are the index keys, vectors match all rows, no dangling row, rows at most maxsize plus a ninth |
| GdsfPolicy.PopsFollow | gptcache/manager/eviction/memory_cache.py:53-58 | GDSF as the manager's policy pops what the GDSF cache with that history pops |
| GdsfPolicy.OverflowSoftDeletesTheLowest | gptcache/manager/data_manager.py:268-271 | what the manager soft-deletes are the ids of least GDSF priority, lowest first |
| GdsfPolicy.RunFollows | gptcache/manager/data_manager.py:256-266 | in every run the live rows are the residents of the GDSF cache the accesses describe |
| GdsfRefinement.PutIsSet | gptcache/manager/data_manager.py:357-359 | a put of the manager is the GDSF cache's set with the row's cost |
| GdsfRefinement.HitIsRead | gptcache/manager/data_manager.py:387-388 | a hit is the cache's read, of a live id and of any other |
| GdsfRefinement.RunIsRun | gptcache/manager/data_manager.py:357-388 | every run of the manager is the cache's run of the corresponding sets and reads |
| GdsfRefinement.ImportEnters | gptcache/manager/data_manager.py:357-359 | an imported row still live is in the cache with its cost and frequency 1 |
| GdsfRefinement.FrequencyCountsHits | gptcache/manager/data_manager.py:387-388 | over every run a live id that is not evicted gains exactly its hits |
| GdsfRefinement.FrequencyIsOnePlusHits | gptcache/manager/data_manager.py:357-388 | from its import on, its frequency is 1 plus its hits |
| ManagerAging.ReplayPath | gptcache/manager/eviction/memory_cache.py:60-71 | a stretch of the manager's accesses is a path of moves of the GDSF cache |
| ManagerAging.RunGrows | gptcache/manager/data_manager.py:357-388 | a run that spares an id adds only accesses that spare it, storing at cost 1 or more |
| ManagerAging.UnusedRowIsSoftDeleted | gptcache/manager/data_manager.py:25-41 | under GDSF an entry that is not hit any more is not live after maxsize * (floor(P - L) + 1) evictions, whatever else the manager does |
| Ranking.RankThreshold | gptcache/adapter/adapter.py:98-107 | the threshold lies in the evaluator's range and is the scaled one if that does |
| Ranking.ThresholdIsNearest | gptcache/adapter/adapter.py:98-107 | the threshold is the point of the evaluator's range nearest to the scaled similarity |
| Ranking.SortDownFacts | gptcache/adapter/adapter.py:178 | the sorted candidates descend and are the same multiset |
| Ranking.SortIsStable | gptcache/adapter/adapter.py:178 | the order is by rank, and among equals by search order |
| Ranking.SortedHeadIsFirstBest | gptcache/adapter/adapter.py:178 | the first is the earliest candidate of maximal rank |
| Ranking.SortingTwice | gptcache/processor/post.py:87-89 | the second sort in temperature_softmax changes nothing |
| Ranking.RecordsTheServedEntryIff | gptcache/adapter/adapter.py:179-215 | the entry looked up by answer is the served one if and only if no other candidate has that answer |
| Serving.CandidateOf | gptcache/adapter/adapter.py:108-177 | a request misses if and only if no search result passes; what is served or recorded is live and passed |
| Serving.AnswerIsBest | gptcache/adapter/adapter.py:108-211 | the answer served belongs to a passing entry no other passing entry outranks |
| Requests.AnswerIs | gptcache/adapter/adapter.py:108-211 | the answer is the first answer of the live, unrecorded entry at or above the threshold that outranks all others (earlier wins ties), and there is none if and only if no entry is such |
| Requests.RecordedIs | gptcache/adapter/adapter.py:179-215 | the entry recorded is the one with that answer that all others with it outrank |
| Requests.EffectsAre | gptcache/adapter/adapter.py:173-215 | every such entry is touched once in search order, and a hit adds one session row |
| Serving.KnownIsNotServed | gptcache/processor/check_hit.py:20 | an entry recorded for a session is not served to it |
| Serving.EffectsOnTables | gptcache/adapter/adapter.py:177-215 | a request changes no table but for the session row of a hit |
| Serving.ServedIsKnownIff | gptcache/adapter/adapter.py:211-215 | after a hit the session is recorded for what it was served if and only if no other candidate has the same answer |
| Serving.ServedAgainIff | gptcache/adapter/adapter.py:179-215 | repeating a request right after a hit serves the same entry if and only if another passing entry carries the same answer |
| Ranking.SortExcept | gptcache/adapter/adapter.py:178 | leaving one candidate out commutes with the stable sort |
| Serving.SavedIsKnown | gptcache/manager/scalar_data/sql_storage.py:258-266 | a saved entry is recorded for the session that saved it |
| Serving.RunKeepsKnowledge | gptcache/manager/data_manager.py:361-412 | a record lasts over runs until the session is dropped or the id goes to a new entry |
| Serving.NotServedAgain | gptcache/manager/data_manager.py:361-380 | in every run of store requests an entry recorded for a session is not served to it |
| Serving.OnlySavesAddEntries | gptcache/manager/data_manager.py:350 | an id only becomes live by being handed out to a new entry |
| Serving.RunHasAnswers | gptcache/adapter/adapter.py:175 | if every saved entry has an answer, every live entry has one, in every run, and the storage bound holds |
| Serving.Collect | gptcache/adapter/adapter.py:108-177 | the candidate loop finds exactly the passing results in search order and touches each |
| Serving.Ask | gptcache/adapter/adapter.py:95-215 | the lookup on the mutable manager gives that answer and has those effects |
| Sessions.Play | gptcache/adapter/adapter.py:83-286 | a whole request, an import or a dropped session keeps agreement, the storage bound and an answer for every live entry |
| Sessions.Adapt | gptcache/adapter/adapter.py:83-286 | the whole request on the mutable manager, the save after a miss included, is such a step |
| Requests.ServedRequest | gptcache/adapter/adapter.py:177-232 | a served request leaves questions, answers and vectors as they were |
| Requests.MissedRequest | gptcache/adapter/adapter.py:252-253 | a miss with nothing fetched changes nothing |
| Requests.FetchedRequest | gptcache/adapter/adapter.py:255-283 | a miss, or a skipped lookup, with something fetched saves it live and readable with the request's session, and no other live entry reads differently |
| Requests.BulkImport | gptcache/manager/data_manager.py:319-359 | a bulk import leaves its rows as given, each put with its own cost |
| Requests.EndedSession | gptcache/manager/data_manager.py:410-412 | an ended session leaves everything but its own rows |
| Sessions.MeetingGuards | gptcache/adapter/adapter.py:211-273 | a session that saves an entry, or is served it with an answer nobody else carries, is recorded for it if it is live |
| Sessions.NeverServedTwice | gptcache/processor/check_hit.py:20 | in every run of steps no entry is served twice to a session, nor to the session that saved it, until the session is dropped or the id goes to a new entry |
| Sessions.ServedTwiceIff | gptcache/adapter/adapter.py:179-215 | an identical request right after serves the same entry if and only if its answer was shared |
| Chain.HitIffStored | gptcache/adapter/adapter.py:98-173 | with exact match and clamped threshold a level hits if and only if it holds the key |
| Chain.SaveTruthful | gptcache/manager/data_manager.py:145-150 | saving what the model said keeps a level truthful and within its size, whatever it evicts |
| Chain.SaveIs | gptcache/manager/data_manager.py:145-150 | one entry of the policy's choice leaves if the key is new and the container full, and none otherwise |
| Chain.AdaptIsTransparent | gptcache/adapter/adapter.py:83-286 | a request gets what the model would say, the model is called once exactly if no enabled level holds the key, and the chain stays truthful |
| Chain.AdaptWritesBack | gptcache/adapter/adapter.py:255-286 | every enabled level passed through ends up holding the answer |
| Chain.EveryLevelIs | gptcache/adapter/adapter.py:83-286 | what a request does to each level: nothing below the one that answers, one access there, nothing at a disabled one, the reply stored at the others passed through |
| Chain.RunsAreTransparent | gptcache/adapter/adapter.py:83-286 | transparency of every request of every run under arbitrary evictions |
| Chain.MapDataManager.Search | gptcache/manager/data_manager.py:185-189 | at most one result, counted as an access |
| Chain.MapDataManager.SaveEntry | gptcache/manager/data_manager.py:145-150 | the assignment into a bounded container, eviction included |
| Chain.AdaptChain | gptcache/adapter/adapter.py:83-286 | the recursive request over the mutable caches gives exactly the modelled reply, stores and number of model calls |
| Replay.CleanSize | benchmarks/run_bench.py:51 | at least 1, and at most maxsize for a ratio of at most 1 |
| Replay.CleanSizeIs | benchmarks/run_bench.py:51 | the whole part of the product, but at least 1 |
| Replay.ReplayBalances | benchmarks/run_bench.py:69-104 | for any policy and workload: the mirror set is the cache, requests are hits plus cached plus reported, latencies add up |
| Replay.RequestIs | benchmarks/run_bench.py:70-84 | one more request, field by field: hit or miss latency, tokens, the access with its cost, evictions only by a miss on a full cache |
| Replay.PutMiss | benchmarks/run_bench.py:79-82 | a miss inserts the key and reports what the overflow evicted |
| Replay.RunOne | benchmarks/run_bench.py:36-107 | the loop returns those books, and its eviction count is the number of keys reported |
| TemplateValues.FindIsFirst | gptcache/processor/pre.py:64-68 | the search yields the first match at or after its start, and -1 exactly when there is none |
| TemplateValues.NamesAre | gptcache/processor/pre.py:54-59 | a field is called by its name, or by the number of fields before it in decimal |
| TemplateValues.PiecesInPlace | gptcache/processor/pre.py:61-73 | every literal and value sits at its true position in the formatted text |
| TemplateValues.ExtractsFrom | gptcache/processor/pre.py:61-74 | from any true position on, an unambiguous text yields the original values |
| TemplateValues.BehindFails | gptcache/processor/pre.py:61-74 | a search that runs behind the true positions never yields the original values |
| TemplateValues.FieldEndedRoundTripIff | gptcache/processor/pre.py:61-74 | with a field at the end, extraction inverts formatting if and only if each next literal is first met at its true position |
| TemplateEndings.IndexErrorIff | gptcache/processor/pre.py:63-73 | on any text and template, IndexError if and only if there are more literals than fields and the literals looked for occur one after the other |
| TemplateEndings.LiteralEndedRaises | gptcache/processor/pre.py:63-73 | text formatted from a template that ends in a literal always raises IndexError when no empty value follows an empty literal |
| TemplateEndings.LiteralEndedRaisesIff | gptcache/processor/pre.py:63-74 | with or without such pairs: IndexError if and only if the literals occur one after the other, and otherwise a field is missing |
| TemplateEndings.LiteralEndedNeverRecovers | gptcache/processor/pre.py:63-74 | a template that ends in a literal never gives its values back |
| TemplateEndings.RoundTripIff | gptcache/processor/pre.py:51-74 | extraction inverts formatting if and only if the template ends in a field and each next literal is first met at its true position |
| TemplateValues.GetPatternValue | gptcache/processor/pre.py:51-74 | the two loops compute that extraction, IndexError included |
| SequenceMatch.Parallelogram | gptcache/similarity_evaluation/sequence_match.py:9-10 | squared distance of difference and sum add up to twice the squared norms, in any dimension |
| SequenceMatch.UnitDistance | gptcache/similarity_evaluation/sequence_match.py:9-10 | unit vectors are at squared distance between 0 and 4 |
| SequenceMatch.ReweightedSum | gptcache/similarity_evaluation/sequence_match.py:13-23 | rescaled weights sum to 1 |
| SequenceMatch.Reweight | gptcache/similarity_evaluation/sequence_match.py:13-23 | the loops rescale the first weights, or divide by zero |
| SequenceMatch.Evaluation | gptcache/similarity_evaluation/sequence_match.py:103-115 | the loop computes the weighted score, AssertionError and ZeroDivisionError included |
| SequencePairs.ScorePairsFromTheEnd | gptcache/similarity_evaluation/sequence_match.py:103-115 | on all inputs the score pairs the last turns with each other under the last weight, and so on backwards, over the sum of the weights used; errors included |
| SequencePairs.OlderTurnsDoNotMatter | gptcache/similarity_evaluation/sequence_match.py:103-115 | a turn in front of a conversation with as many as are compared changes nothing |
| SequencePairs.OneTurn | gptcache/similarity_evaluation/sequence_match.py:110-115 | one turn and one weight in closed form |
| SequencePairs.TwoTurns | gptcache/similarity_evaluation/sequence_match.py:110-115 | two turns and two weights in closed form |
| SequencePairs.DistanceAdds | gptcache/similarity_evaluation/sequence_match.py:9-10 | the squared distance adds up over the coordinates |
| SequenceMatch.ScoreRange | gptcache/similarity_evaluation/sequence_match.py:103-115 | scores lie between 0 and four times the weight in use, and a conversation with itself reaches that |
| SequenceMatch.DeclaredRangeIff | gptcache/similarity_evaluation/sequence_match.py:117-122 | every score stays in [0, 4] if and only if a weight is left out or the weights sum to at most 1 |
| Shortcomings.EvictedKeyIsLost | gptcache/manager/eviction/memory_cache.py:12-16 | maximum 1, clean size 2, two sets: the first key is evicted and on_evict gets an empty list |
| Shortcomings.StoresDrift | gptcache/manager/data_manager.py:268-271 | maximum 1, clean size 2, two imports: a row stays live outside the eviction index |
| Shortcomings.SecondSetSpins | gptcache/manager/eviction/manager.py:27-28 | maximum 1 with the default clean size: the second set never makes room |
| Shortcomings.AgingValueFalls | gptcache/manager/eviction/gdsf.py:49-77 | a cost of -1 lands below the aging value and lowers it when evicted |
| Shortcomings.ServedTwiceRunning | gptcache/adapter/adapter.py:179-215 | two entries with the same answer: asking twice serves the same entry twice to one session |
| Shortcomings.ScoreOutsideRange | gptcache/similarity_evaluation/sequence_match.py:117-122 | a single weight of 2 scores 8 |
| Shortcomings.TellMePlease | gptcache/processor/pre.py:63-73 | "tell me {x} please" raises IndexError for every value |
| Shortcomings.EmptyBeforePlease | gptcache/processor/pre.py:63-74 | "{x} please" with an empty value yields no field |
| Shortcomings.SpaceInValue | gptcache/processor/pre.py:63-74 | "{a} {b}" with "x y" and "z" comes back as "x" and "y z" |

## Left out

- Float rounding: strict comparisons and exact scaling are statements about real numbers.
- The code of `cachetools` and `heapq` is not part of this model; only the behaviour named under
  Conventions is. LRU, LFU, FIFO and RR appear as arbitrary policies that pick a resident from the
  access history.
- Eviction.OverflowEvictsTheLowest: unit sizes only, as every caller in the repository uses; with
  other sizes an overflow may need several batches, for which `Eviction.BatchReports` and
  `Eviction.BatchLosesNothingIff` still hold batch by batch.
- Aging.UntouchedEntryAgesOut: values take up at least one unit of size (values of size 0 would let
  any number of residents in), and it bounds evictions, not time.
- Scaling.RunScales: the size of a value must not depend on its cost.
- GdsfCache.GDSFCache.SetItem: where the original loops for ever (a wrapped popitem with clean size 0
  and no room, `Eviction.OverflowLoopEndsIff`) there is no resulting state to state; the method requires
  that it returns. `GdsfModel.Progressive` runs, with a positive clean size, always do.
- DataManager.SSDataManager.constructor: requires `1 <= clean_size <= maxsize`; with other clean sizes the
  original starts, and spins or drifts apart at its first overflow (`ManagerModel.OverflowAgreesIff`).
- DataManager.AnswerCost: contents other than text, which add nothing to the total, are not modelled.
- ManagerModel.RunKeeps: requires `1 <= clean_size <= maxsize`, which
  `ManagerModel.OverflowAgreesIff` shows to be needed, and a table within the bound to begin with.
- Serving.Ask: requires every live entry to have an answer, which `adapter.py` indexes blindly and
  `Serving.RunHasAnswers` keeps; covers temperature 0, the default session check and the default
  post-processing, without object store, health check, dependency context or hit callback.
- Sessions.NeverServedTwice: entries are told apart by id between two times the id is handed out; the
  database may reuse the id of a swept entry for a new one.
- Chain.AdaptChain: levels are exact-match `MapDataManager`s without sessions (the recursive call does
  not forward the session), the chain has no repeated cache (with a cycle the original recurses for
  ever), and a failing save is only logged.
- ManagerAging.UnusedRowIsSoftDeleted: counts evictions by the ledger of the cache that the access
  history describes; a row re-imported under the same id is a new entry.
- SequenceMatch.Evaluation: starts from normalised embeddings; splitting at "USER: " and the embedding
  model are not modelled, and all embeddings have the same dimension.
- TemplateEndings.RoundTripIff: starts from the parsed template; `string.Formatter.parse` and format
  specifications are not modelled, and escaped braces, which split a literal in two, only in
  `TemplateEndings.IndexErrorIff`.
- Replay.RunOne: requires a cache that can hold something and a clean ratio of at most 1; beyond that
  evicted keys go unreported and the mirror set drifts (`Eviction.OverflowReportsIff`). Percentiles,
  rates and wall-clock figures are not modelled.
- Non-text answers and the object store; the `create_on` and `last_access` timestamps; the report
  table; flushing and pickling.
- Sampling at positive temperatures, LLM verification, summaries and the asynchronous variant of
  `adapt`.
- `MapDataManager.list_sessions` and `delete_session`, whose results mix keys and session names.
- Redis, Mongo, Dynamo and S3 back ends, distributed eviction, and the concrete vector indexes.
- Row ids of session rows follow SQLite (largest in use plus one); nothing proved depends on it beyond
  freshness.
