# Engram verification

A Dafny model of the hardest logic in the Engram repository, with proofs over every input,
every run or every reachable state. Verify everything with `dafny verify dfyconfig.toml`.

What is modelled, in the system's own terms:

* **The KV radix cache** (`python/sglang/srt/mem_cache/radix_cache.py`). The tree is a value
  (`RadixTree`), its meaning the map from token prefixes to KV slots (`RadixMeaning`). Lock
  counts are tied to the requests that hold a path (`RadixLocks`, `RadixHolders`), the
  evictable-leaf set and the size counters to the tree (`RadixLeaves`, `RadixKept`,
  `RadixCache`). Requests sharing the cache and the KV pool form a state machine
  (`RadixPool`); over all its runs no slot leaks and none is in two places
  (`RadixPoolSafety`, `RadixConservation`), and each step is said through lookups
  (`RadixSteps`). `RadixKeys` covers page-wise key matching.
* **The trace converter** (`scripts/convert_otel_2_perfetto.py`). Sorted interval lines
  (`SpanLine`), the sticky-then-first-fit choice of a line (`SpanLayout`), its optimality
  (`LayoutOptimality`), where every span goes, said of the log alone (`LayoutRules`), the
  mutable layout graph (`LayoutRun`), the span tree (`SpanTree`), the recursive passes over
  it (`SpanPasses`) and the converter end to end (`TraceConversion`).
* **The multi-turn benchmark** (`benchmark/hicache/bench_multiturn.py`). Sender, server and
  response handler interleave as a state machine (`Multiturn`) with safety
  (`MultiturnSafety`), the round barrier (`MultiturnBarrier`), what is sent and in which
  order (`MultiturnPrompts`), what a failure does to the barrier (`MultiturnFailures`),
  exactly when the bar on which the program stops is full (`MultiturnStop`), how the two
  threads leave on it (`MultiturnLeaving`), and the mutable generator, which carries the run
  it has taken (`MultiturnWorkload`).
* **The serving benchmark's conversations** (`benchmark/hicache/bench_serving.py`):
  `Conversations`, `ConversationProofs`, and what the requests say (`ConversationTexts`).
* **Line retrieval** (`benchmark/line_retrieval`): redirect chains and fair questions
  (`RedirectChains`, `LineRetrieval`).
* **Answer extraction** (`benchmark/reasoning_benchmark/answer_extraction.py`): `Text`,
  `AnswerExtraction`, `FracFixer`.
* **The nightly wheel index** (`scripts/update_nightly_whl_index.py`): `WheelIndex`,
  `WheelHistory`.
* **Chat filtering** (`benchmark/hicache/data_processing.py`): `ChatFilter`; and **the user
  generator** (`benchmark/hicache/bench_mix.py`): `UserGenerator`.

`Basics`, `Bags` and `Ranks` hold shared vocabulary.

Conventions. `Result.Err` names the Python exception the source raises. Protocols are state
machines: a run is a sequence of labels, `Exec` gives the state it reaches (or none), and
theorems quantify over all runs. A unit of a radix key is one page of tokens in the
namespace of its extra key, and one slot stands for that page's KV slots. A tree node is
named by its full path from the root, which splitting does not change.

Where the code does less than it promises, the exact condition is proved: `ClashIsExactIff`
and `SafeExactlyFor` (zero-length spans hide overlaps), `ConvertTrace` (any gateway span
ends the conversion with KeyError), `StopsIff` and its special cases `StopsWithoutBarrier`,
`StopsAfterFailureIff` and `StopsIffServable` (the multi-turn benchmark hangs after a
failure before a client's last round, after an exception, and on uneven round counts behind
the barrier; `FirstFailureHangs`, `CrashHangs` and `UnservableHangs` are such runs),
`LeavesIff` (the handler can leave between the last move of the bar and the put of that
response; the response is then lost, and with `max_parallel` 1 the sender never leaves),
`FrugalExactlyFor` and `PeakExactlyFor` (spans that cover nothing cost extra lines),
`DrawsAllIff` and `ConversationProofs.EndsIff` (a conversation that fails early makes the
producer give up), `GenerateLines` (too few lines for the few-shot examples),
`RoundTripIffNotNested` and `AnswerBalancedIff` (nested boxes and a `%` after the brace),
`BracedIffFixable`, `NameShownIff`, `SortedIffNotLatest` (a user that becomes due last is
queued before the last one), `TerminatesIff` (an endless loop when no chat survives), and
`PageMatchRounds`: the comment on `RadixKey.match` says the result is rounded down to the
page size, but two equal keys with a partial last page match past their end.

## Model

| member | source | states |
|---|---|---|
| `RadixMeaning.MatchIsLongest` | python/sglang/srt/mem_cache/radix_cache.py:645-669 | a match returns exactly the slots of the longest cached prefix: each shorter prefix is cached with that slot, each longer one is not cached |
| `RadixMeaning.AfterMatchGet` | python/sglang/srt/mem_cache/radix_cache.py:645-691 | the node split a match may cause changes no cached prefix |
| `RadixMeaning.SplitGet` | python/sglang/srt/mem_cache/radix_cache.py:671-691 | splitting a node at any inner point changes no cached prefix |
| `RadixMeaning.MatchEndsAtNode` | python/sglang/srt/mem_cache/radix_cache.py:645-669 | after a match, the matched prefix ends exactly at a node |
| `RadixMeaning.InsertGet` | python/sglang/srt/mem_cache/radix_cache.py:701-753 | insertion caches exactly the prefixes of the key in addition, and never replaces a cached slot |
| `RadixMeaning.InsertWellFormed` | python/sglang/srt/mem_cache/radix_cache.py:701-753 | insertion keeps segments nonempty, one slot per unit and siblings told apart by their first unit |
| `RadixMeaning.InsertedMatches` | python/sglang/srt/mem_cache/radix_cache.py:523-525 | after insertion the whole key matches, so the assertion in cache_unfinished_req never fails |
| `RadixMeaning.DeleteGet` | python/sglang/srt/mem_cache/radix_cache.py:773-781 | deleting a leaf forgets exactly the prefixes that end on its own segment |
| `RadixLocks.InsertUses` | python/sglang/srt/mem_cache/radix_cache.py:701-753 | exactly the slots past the matched length enter the tree |
| `RadixLocks.InsertSizes` | python/sglang/srt/mem_cache/radix_cache.py:740-748 | the evictable size grows by the unmatched length and the protected size stays |
| `RadixLocks.DeleteSizes` | python/sglang/srt/mem_cache/radix_cache.py:773-781 | the evictable size shrinks by exactly the deleted leaf |
| `RadixHolders.AfterMatchLocks` | python/sglang/srt/mem_cache/radix_cache.py:671-691 | splitting keeps every lock count equal to the number of holders through the node |
| `RadixHolders.InsertLocks` | python/sglang/srt/mem_cache/radix_cache.py:701-753 | insertion keeps every lock count equal to the number of holders through the node |
| `RadixHolders.LockMatches` | python/sglang/srt/mem_cache/radix_cache.py:589-602 | inc_lock_ref makes the counts those of one more holder |
| `RadixHolders.UnlockMatches` | python/sglang/srt/mem_cache/radix_cache.py:604-623 | dec_lock_ref makes the counts those of the remaining holders |
| `RadixHolders.UnlockTakesOne` | python/sglang/srt/mem_cache/radix_cache.py:604-623 | where a holder lets go, every count on its path is at least one before, so none falls below zero |
| `RadixHolders.LockRoundTrip` | python/sglang/srt/mem_cache/radix_cache.py:589-623 | locking then unlocking a path is the identity; unlocking then locking is the identity if and only if every count on the path was positive |
| `RadixHolders.LocksAt` | python/sglang/srt/mem_cache/radix_cache.py:589-623 | a node's count is the number of held paths that run through its full path |
| `RadixLeaves.InsertFreeLeaf` | python/sglang/srt/mem_cache/radix_cache.py:740-753 | after insertion the evictable leaves are the old ones without the new node's parent, plus the new node |
| `RadixLeaves.LockFreeLeaf` | python/sglang/srt/mem_cache/radix_cache.py:589-602 | locking a path removes exactly its last node from the evictable leaves |
| `RadixLeaves.DeleteFreeLeaf` | python/sglang/srt/mem_cache/radix_cache.py:773-796 | deleting a leaf changes the evictable leaves only at itself and its parent |
| `RadixLeaves.SomeFreeLeaf` | python/sglang/srt/mem_cache/radix_cache.py:560-587 | whenever any unit is evictable, some evictable leaf exists |
| `RadixLeaves.FreeLeafUnheld` | python/sglang/srt/mem_cache/radix_cache.py:783-796 | no request holds a path through an evictable leaf |
| `RadixKept.SlotsAfterInsert` | python/sglang/srt/mem_cache/radix_cache.py:701-753 | a fully cached path keeps its slots through any insertion |
| `RadixKept.SlotsAfterDelete` | python/sglang/srt/mem_cache/radix_cache.py:773-781 | a node's path keeps its slots when a leaf not on it is deleted |
| `RadixKept.LockSizes` | python/sglang/srt/mem_cache/radix_cache.py:589-602 | locking moves exactly the unlocked units on the path from evictable to protected |
| `RadixKept.UnlockSizes` | python/sglang/srt/mem_cache/radix_cache.py:604-623 | unlocking moves exactly the units with one holder back |
| `RadixCache.MatchPrefixHelper` | python/sglang/srt/mem_cache/radix_cache.py:645-669 | the walk down the tree computes the longest match and the path where it ends |
| `RadixCache.RadixCache.constructor` | python/sglang/srt/mem_cache/radix_cache.py:337-347 | an empty cache, with all bookkeeping exact |
| `RadixCache.RadixCache.MatchPrefix` | python/sglang/srt/mem_cache/radix_cache.py:360-418 | the longest match, its last node, and counters and leaf set that stay exact without being touched |
| `RadixCache.RadixCache.InsertKey` | python/sglang/srt/mem_cache/radix_cache.py:420-438 | the inserted tree, the matched length, and size counter and leaf set updated to exactly that tree |
| `RadixCache.RadixCache.IncLockRef` | python/sglang/srt/mem_cache/radix_cache.py:589-602 | one more holder, and counters and leaf set exact again |
| `RadixCache.RadixCache.DecLockRef` | python/sglang/srt/mem_cache/radix_cache.py:604-623 | one holder less, and counters and leaf set exact again |
| `RadixCache.RadixCache.RemoveLeaf` | python/sglang/srt/mem_cache/radix_cache.py:773-781 | the tree without the leaf, its parent entering the leaf set when it became evictable |
| `RadixCache.PopLowest` | python/sglang/srt/mem_cache/radix_cache.py:568-574 | the popped leaf has the lowest rank in the heap |
| `RadixCache.RadixCache.Evict` | python/sglang/srt/mem_cache/radix_cache.py:560-587 | leaves go in order of rank, each lowest among all evictable leaves at its turn; eviction stops when enough is freed or nothing is evictable, never earlier or later; freed slots are exactly those that left the tree; every held path keeps its slots |
| `RadixPool.RecachedNodes` | python/sglang/srt/mem_cache/radix_cache.py:500-525 | after insert and re-match, the old held path and the whole key are nodes and the match covers the key |
| `RadixPoolSafety.NextInv` | python/sglang/srt/mem_cache/radix_cache.py:440-587 | admission, allocation, caching of finished and unfinished requests and eviction all keep: every request's held path is cached with the request's own slots, and lock counts equal the holders |
| `RadixPoolSafety.UnfinishedInv` | python/sglang/srt/mem_cache/radix_cache.py:487-551 | cache_unfinished_req keeps that invariant for every request |
| `RadixPoolSafety.FinishedInv` | python/sglang/srt/mem_cache/radix_cache.py:440-485 | cache_finished_req, inserting or not, keeps that invariant for every remaining request |
| `RadixPoolSafety.EvictInv` | python/sglang/srt/mem_cache/radix_cache.py:560-587 | eviction never takes a held prefix away |
| `RadixConservation.HeldIsMatched` | python/sglang/srt/mem_cache/radix_cache.py:466-478 | the protected length never exceeds the matched length, so no request frees a slot the tree owns |
| `RadixConservation.SlotsConserved` | python/sglang/srt/mem_cache/radix_cache.py:440-587 | in every reachable state each slot occurs in tree, free pool and running requests exactly as often as in the pool |
| `RadixConservation.OwnedExclusively` | python/sglang/srt/mem_cache/radix_cache.py:440-551 | in every reachable state a slot a request owns is not free, not cached and not owned by another request |
| `RadixConservation.PoolAccounting` | python/sglang/srt/managers/scheduler_components/invariant_checker.py:57-73 | in every reachable state available + evictable + protected + uncached equals the pool size: for the full pool without session-held tokens the runtime leak check has nothing to report |
| `RadixConservation.IdleReleasesAll` | python/sglang/srt/managers/scheduler_components/invariant_checker.py:57-73 | with no running request nothing is protected and the whole pool is free or evictable |
| `RadixConservation.EvictionProgress` | python/sglang/srt/mem_cache/radix_cache.py:560-587 | while anything is evictable an eviction step is possible, and it turns evictable units into free slots one for one |
| `RadixSteps.AdmitMeaning` | python/sglang/srt/mem_cache/radix_cache.py:360-418 | an admitted request starts with exactly the longest cached prefix of its key, with the slots cached for it, and holds that prefix; every lookup, the free slots and the other requests stay |
| `RadixSteps.ExtendMeaning` | python/sglang/srt/managers/schedule_batch.py:1811-1819 | a request's key grows by exactly the new units and its slots by the first free ones; nothing else changes |
| `RadixSteps.UnfinishedMeaning` | python/sglang/srt/mem_cache/radix_cache.py:487-551 | exactly the key's prefixes are cached in addition; the request holds its whole key with the slots now cached and keeps those past it; exactly its slots that were cached already become free |
| `RadixSteps.FinishedMeaning` | python/sglang/srt/mem_cache/radix_cache.py:440-485 | with insertion: the request is gone, exactly its prefixes are cached in addition, and its duplicate slots and those past the key become free |
| `RadixSteps.DiscardedMeaning` | python/sglang/srt/mem_cache/radix_cache.py:440-464 | without insertion: no lookup changes and all slots of the request's own become free |
| `RadixSteps.EvictMeaning` | python/sglang/srt/mem_cache/radix_cache.py:560-587 | exactly the last prefixes of one unlocked leaf are forgotten, and exactly their slots become free, in order |
| `RadixRequests.CacheUnfinished` | python/sglang/srt/mem_cache/radix_cache.py:487-551 | the cache object's operations compose to exactly the state machine's step |
| `RadixRequests.CacheFinished` | python/sglang/srt/mem_cache/radix_cache.py:440-485 | the cache object's operations compose to exactly the state machine's step, with and without insertion |
| `RadixRequests.AdmitRequest` | python/sglang/srt/managers/schedule_batch.py:1052-1074 | matching and locking on the cache object compose to exactly the admission step |
| `RadixKeys.MatchTokens` | python/sglang/srt/mem_cache/radix_cache.py:162-168 | the token loop returns the length of the common prefix |
| `RadixKeys.MatchPages` | python/sglang/srt/mem_cache/radix_cache.py:170-176 | the page loop computes the page-wise match of clipped slices |
| `RadixKeys.PageMatchRounds` | python/sglang/srt/mem_cache/radix_cache.py:147-176 | the page match is the common prefix rounded down to whole pages if and only if the keys are not two equal keys with a partial last page |
| `RadixKeys.PartialPageOvershoots` | python/sglang/srt/mem_cache/radix_cache.py:170-176 | two equal one-token keys match two tokens at page size two |
| `RadixKeys.AlignedMatchIsUnitMatch` | python/sglang/srt/mem_cache/radix_cache.py:147-176 | for page-aligned keys the token match is the page size times the common units |
| `RadixKeys.NamespacesApart` | python/sglang/srt/mem_cache/radix_cache.py:363-374 | inserting any key under one extra key changes no match of any key under another |
| `SpanLine.ClashIsExact` | scripts/convert_otel_2_perfetto.py:58-70 | on a line of disjoint nonempty intervals the two-neighbour test answers exactly whether the query overlaps a stored interval |
| `SpanLine.ClashIsExactIff` | scripts/convert_otel_2_perfetto.py:58-70 | a line sorted by start answers every nonempty query exactly if and only if every empty interval lies inside a stored one and no interval reaches past the gap after a later one |
| `SpanLine.InsertKeepsTidy` | scripts/convert_otel_2_perfetto.py:72-73 | inserting a non-clashing interval keeps the line disjoint and ordered |
| `SpanLine.InsertKeepsOrderly` | scripts/convert_otel_2_perfetto.py:72-73 | inserting a non-clashing interval, even one that ends before it starts, keeps every interval ended before the next begins, which makes the two-neighbour test sound |
| `SpanLine.OrderlyNoOverlap` | scripts/convert_otel_2_perfetto.py:58-73 | on such a line a query that passes the two-neighbour test overlaps nothing stored |
| `SpanLine.InsertKeepsAscending` | scripts/convert_otel_2_perfetto.py:72-73 | inserting any interval keeps the line sorted by start |
| `SpanLine.BriefNoOverlap` | scripts/convert_otel_2_perfetto.py:58-73 | a non-clashing interval overlaps nothing on a sorted line whose intervals are shorter than three |
| `SpanLine.InsertContents` | scripts/convert_otel_2_perfetto.py:72-73 | insertion adds exactly the one interval |
| `SpanLine.SpanLayoutContainer.CheckOverlap` | scripts/convert_otel_2_perfetto.py:58-70 | the method computes the two-neighbour test: exact on disjoint lines of nonempty intervals, and never missing an overlap on any orderly line |
| `SpanLine.SpanLayoutContainer.InsertSpan` | scripts/convert_otel_2_perfetto.py:72-73 | the method inserts at the bisect position; without a clash the line stays disjoint and ordered |
| `SpanLayout.StepGood` | scripts/convert_otel_2_perfetto.py:95-120 | placing one span keeps every line sound, log and lines in step and the log free of overlaps, for spans that are all nonempty or all shorter than three |
| `SpanLayout.LayTraceNeverOverlaps` | scripts/convert_otel_2_perfetto.py:268-308 | if no span is empty, or all are shorter than three, no two spans on one line of one process overlap, over the whole layout and in whatever order spans arrive |
| `SpanLayout.LayTraceLogs` | scripts/convert_otel_2_perfetto.py:268-308 | every span is placed exactly once, in processing order |
| `SpanLayout.ZeroLengthHides` | scripts/convert_otel_2_perfetto.py:95-102 | a zero-length span hides the enclosing one: for every length from three on, two overlapping spans of that length end up on one line |
| `LayoutRun.SafeExactlyFor` | scripts/convert_otel_2_perfetto.py:95-120 | for any set of allowed lengths, all layouts of spans with such lengths are overlap-free if and only if zero is not allowed or no length of three or more is; the same for the converter's own start order |
| `LayoutOptimality.FirstFitIsOptimal` | scripts/convert_otel_2_perfetto.py:294-308 | on a fresh process a start-ordered stream of spans of positive length opens exactly as many lines as spans ever run at once |
| `LayoutOptimality.LinesNeeded` | scripts/convert_otel_2_perfetto.py:95-120 | any overlap-free layout of one process uses one line per span running at an instant |
| `LayoutOptimality.NoLayoutUsesFewer` | scripts/convert_otel_2_perfetto.py:294-308 | no overlap-free layout of the same spans, of positive length, uses fewer lines |
| `LayoutOptimality.FrugalExactlyFor` | scripts/convert_otel_2_perfetto.py:95-120 | for any set of allowed lengths, start-ordered streams on a fresh process never use more lines than any overlap-free layout if and only if all allowed lengths are positive or none is |
| `LayoutOptimality.PeakExactlyFor` | scripts/convert_otel_2_perfetto.py:95-120 | for any set of allowed lengths, such streams always open as many lines as spans ever run at once if and only if all allowed lengths are positive |
| `LayoutOptimality.HollowThenReal` | scripts/convert_otel_2_perfetto.py:58-120 | a span that covers nothing followed by one that does, from the same instant, opens two lines where one is enough |
| `Basics.SortIsStable` | scripts/convert_otel_2_perfetto.py:269-276 | sorting by a key keeps the order of equal keys |
| `Basics.StableIsUnique` | scripts/convert_otel_2_perfetto.py:269-276 | an order by key with ties as they came is unique |
| `LayoutRun.LayoutGraph.FindLine` | scripts/convert_otel_2_perfetto.py:95-120 | the remembered line if it has room, else the first line with room, else a new line; the graph grows only then |
| `LayoutRun.LayoutGraph.PlaceSpan` | scripts/convert_otel_2_perfetto.py:280-291 | one span is placed as the layout step says |
| `LayoutRun.LayoutGraph.PlaceAll` | scripts/convert_otel_2_perfetto.py:280-308 | a stream of spans is placed as the layout fold says |
| `LayoutRules.LayTraceRule` | scripts/convert_otel_2_perfetto.py:95-120 | every span of every layout is on the line its request last used on that process, if that has room or the span is empty, and otherwise on the first line with room; said of the finished log alone |
| `LayoutRun.LayoutInOrder` | scripts/convert_otel_2_perfetto.py:268-308 | the spans are laid out request by request, each request's in order of start, requests in order of their first start, then the gateway's in order of start, ties always as they came |
| `LayoutRun.OrderIsUnique` | scripts/convert_otel_2_perfetto.py:269-276 | that order is determined by the input |
| `LayoutRun.GatewayLines` | scripts/convert_otel_2_perfetto.py:294-308 | the gateway process uses exactly the largest number of its spans that run at once, for gateway spans of positive length and any engine spans |
| `LayoutRun.GatewayExactlyFor` | scripts/convert_otel_2_perfetto.py:294-308 | over whole traces with the allowed gateway lengths, the gateway's lines are as few as in any overlap-free layout if and only if all those lengths are positive or none is |
| `LayoutRun.GeneratePerfettoSpanLayout` | scripts/convert_otel_2_perfetto.py:268-308 | fails if and only if a request has no spans; otherwise every span is placed once, in the order of LayoutInOrder and on the line of LayTraceRule, and if no span is empty, or all are shorter than three, spans on one line never overlap |
| `SpanTree.BuildOtelSpanTree` | scripts/convert_otel_2_perfetto.py:172-195 | child lists and roots as KidsMeaning and RootsMeaning say |
| `SpanTree.KidsMeaning` | scripts/convert_otel_2_perfetto.py:172-195 | a span's children are, in input order, the spans that name its id as parent and are not requests, if it is the last span with that id |
| `SpanTree.RootsMeaning` | scripts/convert_otel_2_perfetto.py:172-195 | the roots are the request spans, in input order |
| `SpanTree.DepthBounded` | scripts/convert_otel_2_perfetto.py:172-195 | a span below a root is less deep than there are spans, so the recursive passes end even if other spans form a cycle |
| `SpanTree.PreorderOnce` | scripts/convert_otel_2_perfetto.py:395-406 | a recursive pass visits every span below its start exactly once and nothing else |
| `SpanTree.PreorderAllOnce` | scripts/convert_otel_2_perfetto.py:409-424 | a pass over distinct spans of one depth visits everything below them exactly once |
| `SpanTree.PreorderFromTop` | scripts/convert_otel_2_perfetto.py:395-406 | a pass starts at its span and visits every other one after its parent |
| `SpanPasses.ConvertToPerfettoSpan` | scripts/convert_otel_2_perfetto.py:198-226 | every span below gets the process number and its end brought forward by 1000 once per visit; nothing else changes |
| `SpanPasses.SetSpanTid` | scripts/convert_otel_2_perfetto.py:261-265 | exactly the spans below get the line number |
| `SpanPasses.GatherOneSpan` | scripts/convert_otel_2_perfetto.py:395-406 | the gathered spans are the preorder below the start |
| `SpanPasses.GatheredOnce` | scripts/convert_otel_2_perfetto.py:409-424 | gathering visits every span below a top-level span exactly once |
| `TraceConversion.GeneratePerfettoSpan` | scripts/convert_otel_2_perfetto.py:229-258 | every thread is converted once with its own process number; then every gateway span is converted, or the first one without a child list raises KeyError |
| `TraceConversion.ConvertGateway` | scripts/convert_otel_2_perfetto.py:255-258 | the gateway loop raises KeyError if and only if some gateway span has no child list, else it converts every span once |
| `TraceConversion.ConvertedValues` | scripts/convert_otel_2_perfetto.py:229-258 | every drawn span's end is brought forward exactly once and its process is that of its thread |
| `TraceConversion.StampLines` | scripts/convert_otel_2_perfetto.py:261-291 | every span below a laid-out span gets that span's line |
| `TraceConversion.RequestRecords` | scripts/convert_otel_2_perfetto.py:268-275 | each request's records are its threads' spans, and one is empty if and only if a request has no such span |
| `TraceConversion.ConvertTrace` | scripts/convert_otel_2_perfetto.py:444-457 | as written: fails if and only if there is a gateway span (KeyError, whatever the engine spans are) or a request has no spans (IndexError); otherwise one event per drawn span with its own times, every top-level span on the line the layout chose for it, descendants on their top span's process and line, and no overlap on any line if no top-level span lasts exactly 1000 ns or all last less than 1003 ns |
| `TraceConversion.ConvertListedTrace` | scripts/convert_otel_2_perfetto.py:229-457 | the same for gateway spans that may carry child lists: KeyError if and only if one does not, and every gateway span is drawn once, on the line of the layout, without overlaps under the same condition |
| `TraceConversion.GatewaySpanFails` | scripts/convert_otel_2_perfetto.py:225-258 | a single gateway span ends the conversion with KeyError |
| `TraceConversion.RaisedIff` | scripts/convert_otel_2_perfetto.py:225-276 | which exception comes first, for all inputs |
| `MultiturnSafety.ReachableInv` | benchmark/hicache/bench_multiturn.py:391-548 | in every interleaving each client is in exactly one place, counters agree with the places, and histories agree with what was sent and answered |
| `MultiturnSafety.ParallelismBounded` | benchmark/hicache/bench_multiturn.py:405-418 | sent minus completed is the number of outstanding requests and never exceeds the limit |
| `MultiturnSafety.PoolLasts` | benchmark/hicache/bench_multiturn.py:487-519 | a client that goes on always finds a sub-question left |
| `MultiturnSafety.PromptsExtend` | benchmark/hicache/bench_multiturn.py:487-519 | each prompt starts with the client's previous prompt followed by its answer |
| `MultiturnPrompts.PromptsExact` | benchmark/hicache/bench_multiturn.py:487-519 | in every run each prompt is exactly the previous one, the output that answered it, and the question the client took, the j-th to ask taking the j-th from the end of the pool |
| `MultiturnPrompts.OutputsRecorded` | benchmark/hicache/bench_multiturn.py:447-485 | the outputs on record are those of the client's successful answers in the run, in order |
| `MultiturnPrompts.HandledInOrder` | benchmark/hicache/bench_multiturn.py:391-446 | answers are handled in the order they came; what is not handled yet is with the handler, queued, or about to be |
| `MultiturnPrompts.SentInOrder` | benchmark/hicache/bench_multiturn.py:405-542 | under the fifo policy requests go out as they became due: all first ones, then the others in the order clients asked, with the barrier or without |
| `MultiturnSafety.CompletedRun` | benchmark/hicache/bench_multiturn.py:544-548 | a run without failed requests in which every client is out played every client's rounds exactly, and the progress bar is full |
| `MultiturnBarrier.BarrierHolds` | benchmark/hicache/bench_multiturn.py:521-542 | with the barrier, in every run, also with failures, no client is more than one round ahead, and no working client is ahead at all |
| `MultiturnBarrier.RunIsBounded` | benchmark/hicache/bench_multiturn.py:405-548 | every run has at most eleven steps per round and seven per client |
| `MultiturnBarrier.SomeStep` | benchmark/hicache/bench_multiturn.py:405-548 | with positive parallelism an unsettled state always has a step |
| `MultiturnBarrier.CompletesIffServable` | benchmark/hicache/bench_multiturn.py:521-548 | in a failure-free barrier run that can go no further every client is out if and only if the clients' round counts differ by at most one and none exceeds num_rounds by more than one (single rounds always fit) |
| `MultiturnBarrier.CompletesWithoutBarrier` | benchmark/hicache/bench_multiturn.py:438-548 | without the barrier every client is out when a run can go no further, whatever failed; whether the program then stops is StopsWithoutBarrier |
| `MultiturnBarrier.DriveToQuiescence` | benchmark/hicache/bench_multiturn.py:405-548 | every failure-free run extends to one that can go no further |
| `MultiturnFailures.FailureFreezesRound` | benchmark/hicache/bench_multiturn.py:447-450 | in every barrier run all failures fall into one round, and no client ever gets through more than that round |
| `MultiturnFailures.FailedIffFailure` | benchmark/hicache/bench_multiturn.py:447-450 | a barrier run has a client out with rounds left if and only if a failed response was counted |
| `MultiturnFailures.AllOutAfterFailureIff` | benchmark/hicache/bench_multiturn.py:447-450 | in a barrier run with a failure that can go no further every client is out if and only if no client that did not fail has a round after the failed one |
| `MultiturnStop.StopsIff` | benchmark/hicache/bench_multiturn.py:394-548 | a run that can go no further fills the progress bar, the test on which both threads leave, if and only if every client played all its rounds or failed in its last one, and no request ended in an exception |
| `MultiturnStop.StopsWithoutBarrier` | benchmark/hicache/bench_multiturn.py:394-548 | without the barrier: if and only if every failure hit a client's last round and no request ended in an exception |
| `MultiturnStop.StopsAfterFailureIff` | benchmark/hicache/bench_multiturn.py:417-548 | with the barrier and a failure: if and only if no client has a round after the failed one and no request ended in an exception |
| `MultiturnStop.StopsIffServable` | benchmark/hicache/bench_multiturn.py:417-548 | failure-free with the barrier: if and only if the round counts differ by at most one and none exceeds num_rounds by more than one |
| `MultiturnStop.FullBarAlmostDone` | benchmark/hicache/bench_multiturn.py:395-418 | when the bar is full nothing is ready or held back, and the only request in flight, if any, is answered and about to be queued |
| `MultiturnStop.FirstFailureHangs` | benchmark/hicache/bench_multiturn.py:417-450 | one client with two or more rounds whose first request fails: nothing can happen any more, and the bar stands at one |
| `MultiturnStop.CrashHangs` | benchmark/hicache/bench_multiturn.py:394-403 | one client whose first request ends in an exception: nothing can happen any more, and the bar has not moved |
| `MultiturnStop.UnservableHangs` | benchmark/hicache/bench_multiturn.py:521-545 | every configuration the barrier cannot serve has a run without failures that can go no further with a bar that is not full |
| `MultiturnLeaving.LeavesIff` | benchmark/hicache/bench_multiturn.py:394-545 | a program with no step left: the handler got out if and only if the bar is full; it missed exactly one response if and only if it left between the move of the bar and the put; the sender got out if and only if the bar is full and not that with max_parallel 1; otherwise the workload is stuck as in StopsIff |
| `MultiturnLeaving.EndsIff` | benchmark/hicache/bench_multiturn.py:394-545 | if the handler does not leave inside that window, both threads get out if and only if every client played out and nothing crashed |
| `MultiturnLeaving.LastResponseLost` | benchmark/hicache/bench_multiturn.py:394-545 | every configuration that can fill the bar has a schedule that loses the last response, and then the sender gets out if and only if max_parallel is at least 2 |
| `MultiturnLeaving.OneAnswerLost` | benchmark/hicache/bench_multiturn.py:394-545 | one client, one round, max_parallel 1: the answer is lost and the sender never leaves |
| `MultiturnLeaving.Projects` | benchmark/hicache/bench_multiturn.py:405-545 | whatever the threads do, the workload takes the steps of the state machine, so what holds of all its runs holds of the program |
| `MultiturnLeaving.ProgramIsBounded` | benchmark/hicache/bench_multiturn.py:405-545 | every run of the program is finite |
| `MultiturnStop.EqualRoundsAfterFailure` | benchmark/hicache/bench_multiturn.py:417-542 | with the barrier and equal round counts, a run with a failure stops if and only if the failure came in the last round and nothing crashed |
| `MultiturnWorkload.ResolveRounds` | benchmark/hicache/bench_multiturn.py:236-251 | the resolved range is valid, and exactly which settings raise ValueError |
| `MultiturnWorkload.ClientsPerRoundSum` | benchmark/hicache/bench_multiturn.py:264-268 | participants summed over rounds equal the total number of requests |
| `MultiturnWorkload.DefaultRoundsStop` | benchmark/hicache/bench_multiturn.py:236-251 | with the default settings every run without failures that can go no further has filled the bar, with the barrier or without |
| `MultiturnWorkload.ReadyQueue.Pop` | benchmark/hicache/bench_multiturn.py:198-209 | removes one element, the first under fifo; None when empty; ValueError for an unknown policy on a nonempty queue only |
| `MultiturnWorkload.WorkloadGenerator.constructor` | benchmark/hicache/bench_multiturn.py:213-304 | the generator starts in the state machine's initial state with an empty run |
| `MultiturnWorkload.WorkloadGenerator.SenderTurn` | benchmark/hicache/bench_multiturn.py:405-418 | extends the run by one enabled send step, or changes nothing when the queue is empty or the limit is reached |
| `MultiturnWorkload.WorkloadGenerator.FinishRequest` | python/sglang/test/kits/cache_hit_kit.py:87-89 | extends the run by an answer: the bar moves and the response is still to be queued |
| `MultiturnWorkload.WorkloadGenerator.HandleRequest` | benchmark/hicache/bench_multiturn.py:391-397 | extends the run by queueing the response whose request has moved the bar |
| `MultiturnWorkload.WorkloadGenerator.HandleException` | benchmark/hicache/bench_multiturn.py:398-403 | extends the run by an exception: a failure is queued and the bar stands still |
| `MultiturnWorkload.WorkloadGenerator.GetResponse` | benchmark/hicache/bench_multiturn.py:442-446 | extends the run by taking the first response |
| `MultiturnWorkload.WorkloadGenerator.CountResponse` | benchmark/hicache/bench_multiturn.py:447-485 | extends the run by counting it, for success and failure |
| `MultiturnWorkload.WorkloadGenerator.RequeueClient` | benchmark/hicache/bench_multiturn.py:487-519 | extends the run by the client's next question or its leaving, whose effect on prompts PromptsExact states; never meets an empty sub-question list |
| `MultiturnWorkload.WorkloadGenerator.BarrierCheck` | benchmark/hicache/bench_multiturn.py:521-534 | extends the run by the barrier step |
| `MultiturnWorkload.WorkloadGenerator.ReleaseNext` | benchmark/hicache/bench_multiturn.py:538-542 | extends the run by releasing one held request, or by starting the next barrier round |
| `MultiturnWorkload.WorkloadGenerator.HandlerTurn` | benchmark/hicache/bench_multiturn.py:442-542 | one turn of the handler's loop takes the first response and no other, counts it once, and ends idle after handler steps only |
| `MultiturnWorkload.WorkloadGenerator.MayLeave` | benchmark/hicache/bench_multiturn.py:417-418 | the leaving test holds exactly on a full bar, and then at most one response, already counted by the bar, is still to be queued |
| `MultiturnWorkload.WorkloadGenerator.ParallelismKept` | benchmark/hicache/bench_multiturn.py:405-418 | whatever calls were made, outstanding requests never exceed the limit |
| `MultiturnWorkload.WorkloadGenerator.RoundsKept` | benchmark/hicache/bench_multiturn.py:521-542 | with the barrier, whatever calls were made, no client is more than one round ahead |
| `MultiturnWorkload.WorkloadGenerator.PromptsKept` | benchmark/hicache/bench_multiturn.py:487-519 | whatever calls were made, each prompt is the previous one, its answer and the question taken for it |
| `MultiturnWorkload.WorkloadGenerator.StepsBounded` | benchmark/hicache/bench_multiturn.py:405-548 | no object takes more than eleven steps per round and seven per client |
| `MultiturnWorkload.WorkloadGenerator.StopsExactly` | benchmark/hicache/bench_multiturn.py:394-548 | an object with no step left has a full bar if and only if every client played out and nothing crashed |
| `Conversations.RequestFuncInput.Ask` | benchmark/hicache/bench_serving.py:99-116 | the user message joins the history, the prompt length counts all earlier turns, and an exhausted record fails unchanged |
| `Conversations.RequestFuncInput.Answer` | benchmark/hicache/bench_serving.py:172-190 | the text joins the history, the prompt takes the actual output length, and the record is requeued for its next prompt if and only if there is one |
| `ConversationProofs.ReachableInv` | benchmark/hicache/bench_serving.py:263-283 | in every interleaving each conversation is in one place, draws match requests, and histories match what was sent |
| `ConversationProofs.OneOutstanding` | benchmark/hicache/bench_serving.py:172-190 | a conversation never has two requests under way |
| `ConversationProofs.RequestsInOrder` | benchmark/hicache/bench_serving.py:99-190 | the k-th request carries the k-th prompt after 2k alternating messages, and extends the request before it |
| `ConversationTexts.RequestsExact` | benchmark/hicache/bench_serving.py:99-190 | request k carries, turn by turn, the prompts and the texts that answered them in the run, and ends with prompt k |
| `ConversationTexts.LengthsExact` | benchmark/hicache/bench_serving.py:172-177 | an answered prompt has the length of its answer, every other one the length it was given |
| `ConversationTexts.TokensCounted` | benchmark/hicache/bench_serving.py:102-106 | the reported prompt length counts all inputs and all outputs of the earlier turns |
| `ConversationTexts.DrawnInOrder` | benchmark/hicache/bench_serving.py:186-190 | conversations are drawn in the order they joined the queue: all once, then those that return, as they return |
| `ConversationTexts.RunningBounded` | benchmark/hicache/bench_serving.py:399-412 | never more requests at once than the semaphore admits |
| `ConversationProofs.PutNeverBlocks` | benchmark/hicache/bench_serving.py:172-190 | the bounded queue is never full when a worker puts a conversation back |
| `ConversationProofs.RunIsBounded` | benchmark/hicache/bench_serving.py:263-283 | every run, with failures and the timeout, has at most three steps per request |
| `ConversationProofs.DrawsAllIff` | benchmark/hicache/bench_serving.py:263-283 | when everyone is idle and the producer has not given up, it made all draws if and only if no conversation failed with prompts left; otherwise giving up is the only step left |
| `ConversationProofs.NeverStarves` | benchmark/hicache/bench_serving.py:263-283 | without failures, and as long as no wait exceeds the timeout, every prompt of every conversation is sent exactly once |
| `ConversationProofs.EndsIff` | benchmark/hicache/bench_serving.py:263-283 | a run that has ended sent one request per draw, and every prompt if and only if the producer did not give up; it did if a conversation failed with prompts left |
| `ConversationProofs.GivesUpOnSlowAnswer` | benchmark/hicache/bench_serving.py:268-275 | without any failure, one slow answer makes the producer give up and the second prompt is never sent |
| `ConversationProofs.SplitKeepsRequests` | benchmark/hicache/bench_serving.py:414-421 | splitting conversations for a shared prefix makes every prompt a conversation of its own, in order, and keeps the number of requests |
| `RedirectChains.Chase` | benchmark/line_retrieval/gen_data.py:63-74 | a chain gets a link if and only if it reaches a plain line, and then the link is the whole path and the walk ends at that line |
| `RedirectChains.BuildLinks` | benchmark/line_retrieval/gen_data.py:56-76 | rings are exactly the lines that never resolve, links the exact paths, and values those of the terminal lines |
| `RedirectChains.RevisitNeverResolves` | benchmark/line_retrieval/gen_data.py:70-73 | a chain that meets a visited line never reaches a plain one |
| `RedirectChains.GroupByHops` | benchmark/line_retrieval/gen_data.py:78-83 | each unringed line is in the group of its link length plus one, in order |
| `RedirectChains.GroupsPartition` | benchmark/line_retrieval/gen_data.py:78-83 | a line is in group h if and only if it resolves in h minus one hops |
| `LineRetrieval.GenerateLines` | benchmark/line_retrieval/gen_data.py:20-120 | lines, links, values and groups agree with the redirects, groups 1 and 2 always exist, and the three few-shot examples say what the text says and are the sixth plain line and the two nearest lines of one hop, or else the second and eleventh plain line; fails (IndexError) if and only if there are fewer than six plain lines, exactly one line of one hop, or none and fewer than eleven plain lines |
| `LineRetrieval.GroupSize` | benchmark/line_retrieval/gen_data.py:78-90 | a group has as many entries as there are lines with that number of hops |
| `LineRetrieval.InOrderRank` | benchmark/line_retrieval/gen_data.py:90-95 | place k of a sorted group is the line with exactly k lines of the group before it, by the furthest line touched, then by number |
| `LineRetrieval.ShownChainAnswers` | benchmark/line_retrieval/bench_sglang.py:41-53 | when a line's whole chain is shown, reading the shown text gives its stored value |
| `LineRetrieval.UsableIsAnswered` | benchmark/line_retrieval/bench_sglang.py:41-53 | every line the filter admits is answered by the shown text |
| `LineRetrieval.PickInRange` | benchmark/line_retrieval/bench_sglang.py:47-49 | the chosen position is in range: for a nonnegative percentage that fraction of the length rounded down, or the last one; there is none if and only if the list is empty or the position lies before its start |
| `LineRetrieval.PickMeaning` | benchmark/line_retrieval/bench_sglang.py:47-49 | the position is that percentage of the number without its fraction, at most the last, negative ones counted from the end |
| `LineRetrieval.SplitBody` | benchmark/line_retrieval/bench_sglang.py:52-65 | the four parts joined are the body, and the first three are a quarter of it each, rounded down |
| `LineRetrieval.SelectQuestion` | benchmark/line_retrieval/bench_sglang.py:41-53 | the line asked about has as many usable lines before it as the percentage of their number says, has the wanted number of hops, and is answered by the first src + 1 lines, which are what is shown; it fails if and only if there is no such group (KeyError) or no usable line at that place (IndexError) |
| `LineRetrieval.EvalModel` | benchmark/line_retrieval/bench_sglang.py:36-68 | one such question per cell of the grid, in order; it succeeds if and only if every cell has a usable line at its place, for all percentages |
| `LineRetrieval.CellAt` | benchmark/line_retrieval/bench_sglang.py:36-39 | question i times the number of percentages plus j belongs to source index i and percentage j |
| `LineRetrieval.AskableIff` | benchmark/line_retrieval/bench_sglang.py:41-49 | for a nonnegative percentage a cell has one if and only if any line of the group is usable |
| `AnswerExtraction.ScanPiece` | benchmark/reasoning_benchmark/answer_extraction.py:182-197 | the scan stops at the first brace that closes more than was opened, if any |
| `AnswerExtraction.ExtractBoxedAnswers` | benchmark/reasoning_benchmark/answer_extraction.py:182-197 | the loop over the pieces collects exactly their answers |
| `AnswerExtraction.ExtractsBoxes` | benchmark/reasoning_benchmark/answer_extraction.py:182-197 | rendering plain boxes and extracting gives back their contents, in order |
| `AnswerExtraction.AnswerBalancedIff` | benchmark/reasoning_benchmark/answer_extraction.py:182-197 | an answer has balanced braces if and only if no percent sign follows the closing brace |
| `AnswerExtraction.AnswersAreBoxContents` | benchmark/reasoning_benchmark/answer_extraction.py:182-197 | every answer is the text from a box to its closing brace |
| `AnswerExtraction.RoundTripIffNotNested` | benchmark/reasoning_benchmark/answer_extraction.py:182-197 | a balanced box is extracted as itself if and only if it contains no box |
| `FracFixer.FixFracsLoop` | benchmark/reasoning_benchmark/answer_extraction.py:8-37 | the loop computes the fixed text, leaving the text alone where it gives up |
| `FracFixer.FixFracsMeaning` | benchmark/reasoning_benchmark/answer_extraction.py:8-37 | a braced fraction stays; otherwise its first character gets braces and so does the second unless it opens a brace; the text between stays; if some piece is too short nothing changes |
| `FracFixer.FixFracsIdempotent` | benchmark/reasoning_benchmark/answer_extraction.py:8-37 | fixing twice is fixing once |
| `FracFixer.FixFracsAddsOnlyBraces` | benchmark/reasoning_benchmark/answer_extraction.py:8-37 | without braces the text is unchanged |
| `FracFixer.BracedIffFixable` | benchmark/reasoning_benchmark/answer_extraction.py:8-37 | afterwards every fraction is followed by an opening brace if and only if each piece after one starts with a brace or has two characters |
| `WheelIndex.ParsePrint` | scripts/update_nightly_whl_index.py:79-150 | reading a written index gives back exactly its links |
| `WheelIndex.PrintedLines` | scripts/update_nightly_whl_index.py:142-150 | the file is its two heading lines with the CUDA version, the links, and an end |
| `WheelIndex.LinkReadsBack` | scripts/update_nightly_whl_index.py:90-99 | release tag, file name and hash can be read back from a link's address |
| `WheelIndex.NameShownIff` | scripts/update_nightly_whl_index.py:95-121 | a link's file name is recognised if and only if it is a wheel name without angle brackets |
| `WheelIndex.RemoveDuplicates` | scripts/update_nightly_whl_index.py:111-121 | the first link of every name is kept, in order |
| `WheelIndex.MergeIsOnePass` | scripts/update_nightly_whl_index.py:111-121 | deduplicating new links before a deduplicated index is deduplicating everything at once |
| `WheelHistory.PackageIndex.Update` | scripts/update_nightly_whl_index.py:79-150 | the file's links are always the deduplicated links of the whole history, newest release first, under the heading of its CUDA version; a failing update changes nothing |
| `WheelHistory.OneLinkPerWheel` | scripts/update_nightly_whl_index.py:111-121 | after any history every published wheel name has exactly one link, and others none |
| `WheelHistory.LatestReleaseWins` | scripts/update_nightly_whl_index.py:111-121 | a wheel's link is that of the latest release that published it |
| `WheelHistory.NewestFirst` | scripts/update_nightly_whl_index.py:111-121 | the newest release's links come first and complete |
| `ChatFilter.ProcessChat` | benchmark/hicache/data_processing.py:53-86 | the kept turns and their token totals |
| `ChatFilter.ProcessedMeaning` | benchmark/hicache/data_processing.py:53-86 | the kept requests are made of exactly the turns within all limits, in order, with the fixed or the actual output length |
| `ChatFilter.TokenSums` | benchmark/hicache/data_processing.py:82-84 | the token totals add the prompt and the output length of every kept turn |
| `ChatFilter.Pass` | benchmark/hicache/data_processing.py:47-91 | one pass appends a prefix of the surviving chats and stops exactly at the wanted number |
| `ChatFilter.CommonFilterChat` | benchmark/hicache/data_processing.py:47-91 | place k of the result holds surviving chat k modulo their number, up to the wanted number, with exact token totals |
| `ChatFilter.FilteredMeaning` | benchmark/hicache/data_processing.py:47-91 | place k holds the chat at place k modulo their number among the chats with a turn within the limits, reduced to those turns |
| `ChatFilter.CycleAt` | benchmark/hicache/data_processing.py:47-91 | place k of the repeated survivors holds survivor k modulo their number |
| `ChatFilter.TerminatesIff` | benchmark/hicache/data_processing.py:47-52 | the filter ends if and only if nothing is wanted or some chat has a turn within the limits |
| `UserGenerator.SortedIffNotLatest` | benchmark/hicache/bench_mix.py:259-267 | requeueing keeps the queue ordered by start if and only if the user is not due after everyone queued |
| `UserGenerator.InsertedContents` | benchmark/hicache/bench_mix.py:259-267 | requeueing adds exactly the newcomer to the queue |
| `UserGenerator.DrawRounds` | benchmark/hicache/bench_mix.py:195-206 | the number of rounds is the first whose cumulative ratio exceeds the draw |
| `UserGenerator.Generator.Gen` | benchmark/hicache/bench_mix.py:195-228 | a new user in its first round; per round, sent requests equal answered ones plus the users in it, both columns of the input statistics are the number and the prompt tokens of all requests so far, and each user statistic counts the users given that many rounds |
| `UserGenerator.Generator.Push` | benchmark/hicache/bench_mix.py:230-267 | the user leaves after its last round, else advances and is queued once; counts and token sums of requests and answers stay exact per round |
| `UserGenerator.Generator.Pop` | benchmark/hicache/bench_mix.py:270-276 | the head of the queue if it is due, else a new user; never one that is being served |

## Left out

- The rest of the serving engine: schedulers, attention and sampling kernels, the model gateway, hierarchical, sliding-window and Mamba caches, disaggregation.
- The radix tree's node objects, parent pointers and in-place update: the tree is a value, and recursion from the root stands for the walks along parent pointers.
- Radix cache metadata: timestamps, hit counts, priorities, page hashes, KV events, metrics, the disable flag, the debug fallback that stores token ids as slots; the eviction rank is an arbitrary function of the node.
- The bigram view of keys (speculative decoding): units are compared as wholes; a request may have more slots than key units, which covers the extra slot.
- RadixCache.RadixCache.Evict: counts units, so a request for n tokens at page size p is a request for n divided by p, rounded up.
- Between matching a prefix and locking it the scheduler may run other code; admission here is one step.
- HTTP, streaming, argument parsing, subprocesses, files and clocks: responses, draws, times and file contents are parameters.
- Perfetto output format, flow links, slot and thread metadata rows, host ids, span attributes, and the shift of all times to the earliest one.
- LayoutRun.LayoutGraph.FindLine: lines are values in a map, so aliasing of container objects is not modelled.
- TraceConversion.ConvertListedTrace: a gateway span's child list, where given, is taken as empty.
- bench_multiturn: chat-message mode, metrics and heartbeat; an unknown queue policy appears in ReadyQueue.Pop only.
- bench_serving: the length of the producer's timeout (it may give up at any time its queue is empty) and the error responses' text.
- Random choice of lines, names, redirects and values in line retrieval: they are arbitrary parameters; the wording of prefix and suffix.
- The numeric and symbolic answer comparison and the other string clean-ups of answer_extraction.py.
- Hashing the wheels and the root index page of the wheel repository.
- ChatFilter.CommonFilterChat: called only where the source's loop ends, which TerminatesIff characterises; the tokenizer is given as lengths.
- RadixConservation.PoolAccounting: covers the full pool without session-held tokens; the sliding-window and Mamba pools and the session term of the check are not modelled.
- Prompt texts and return lengths in bench_mix, which no decision of the generator depends on; users are values in a map keyed by id.
- UserGenerator.Generator.constructor: needs at least one and at most num_rounds round ratios; other configurations index out of range in the source.
- Kernel benchmarks, Docker and release scripts: no logic beyond straight-line calls.
