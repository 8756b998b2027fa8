# bottleneck-analyzer engine, modelled in Dafny

This project models the simulation and classification engine of the OS performance
bottleneck analyzer and proves properties of that model:

- **Page replacement** (`memory_manager.py`). FIFO, LRU and Optimal (Belady) replacement
  replay one reference string with a fixed number of frames and count page faults.
  `simulate_memory` merges every process's references in batch order and reports the three
  fault counts, the number of references and the LRU fault rate.
- **Disk-head scheduling** (`disk_scheduler.py`). FCFS and SSTF cumulative seek distance
  from an initial head position, and the aggregate `simulate_disk`.
- **Bottleneck classification** (`analyzer.py`). A first-match-wins threshold decision over
  two name-to-number maps, and the fixed-shape `AnalysisResult` record.
- **Advice** (`suggestion.py`). The `SUGGESTIONS` table and its lookup with a default.
- **Workload generation** (`workload.py`). Parameter validation and the batch of
  `ProcessWorkload` records. The pseudo-random generator is a draw oracle.

Modules and files:

| file | module | models |
|---|---|---|
| wrappers.dfy | Wrappers | `ValueError` as `Err(InvalidParameter(message))` |
| seqs.dfy | Seqs | `abs`, `in`, `list.index`, `min` with a key, true division of counts |
| page_frames.dfy | PageFrames | the resident-page list shared by the three policies and their fault accounting |
| fifo.dfy | FifoPolicy | `fifo_page_faults` |
| lru.dfy | LruPolicy | `lru_page_faults` |
| optimal.dfy | OptimalPolicy | `optimal_page_faults` |
| memory_manager.dfy | MemoryManager | `AlgorithmStats`, `simulate_memory` |
| disk_scheduler.dfy | DiskScheduler | `fcfs_seek_time`, `sstf_seek_time`, `simulate_disk` |
| analyzer.dfy | Analyzer | `AnalysisResult`, `analyze_performance` |
| suggestion.dfy | Suggestion | `SUGGESTIONS`, `get_suggestion` |
| workload.dfy | Workload | `ProcessWorkload`, `random.Random`, `generate_workload` |
| scenarios.dfy | Scenarios | worked instances replayed through the model |

The imperative loops keep their form:

- The three policies, `fcfs_seek_time` and `sstf_seek_time` are methods with `for` or
  `while` loops.
- `generate_workload` is a method that drives an `Rng` object whose draw counter advances
  with every `randint`.
- Each method is proved equal to a specification function: `Run`, `FcfsTotal`,
  `SstfOrder` or `Generated`.
- The lemmas state what the source promises about those functions.

The pure parts are functions: `simulate_memory`, `simulate_disk`, `analyze_performance` and
`get_suggestion`.

Numbers:

- Python integers are unbounded, so they are `int`.
- Python floats are `real`. The classifier's thresholds (0.85, 1.25, 500, 100) are exact
  decimals.
- The `AlgorithmStats` and `DiskStats` dictionaries are datatypes with an `AsMap` view that
  yields the keys the classifier reads.

## Model

| member | source | states |
|---|---|---|
| Seqs.IndexOf | memory_manager.py:53 | `list.index`: the result holds `x` and no earlier position does |
| Seqs.FirstMinIndex | memory_manager.py:52 | `min` with a key: a position of the least key, strictly before every earlier position (first among ties) |
| Seqs.Ratio | memory_manager.py:117 | true division of counts: non-negative, at most 1 when the numerator is at most the denominator, and times the denominator gives back the numerator |
| PageFrames.Place | memory_manager.py:26-29 | a fault appends while a frame is free and otherwise overwrites exactly one slot, the victim, leaving every other slot unchanged; the list stays within the frame count and duplicate-free |
| PageFrames.AccountsStart | memory_manager.py:18-20 | the empty start satisfies the fault-accounting invariant |
| PageFrames.AccessKeeps | memory_manager.py:22-30 | whatever victim a policy picks, one reference keeps the accounting: resident pages were referenced, distinct pages ≤ faults ≤ references, and nothing is evicted while the distinct pages fit |
| FifoPolicy.Step | memory_manager.py:22-30 | one FIFO reference keeps a well-formed state: list within the frames, no duplicate, pointer in range and at 0 while filling |
| FifoPolicy.Run | memory_manager.py:22-30 | replaying references keeps the well-formed state |
| FifoPolicy.StepAccounts | memory_manager.py:22-30 | one FIFO reference keeps the fault accounting |
| FifoPolicy.RunAccounts | memory_manager.py:22-30 | replaying references keeps the fault accounting |
| FifoPolicy.Faults | memory_manager.py:14-32 | the FIFO fault count replayed from an empty list: distinct pages ≤ faults ≤ references, exactly the distinct count when they fit in the frames |
| FifoPolicy.QueueAt | memory_manager.py:29-30 | position `j` of the list read from the pointer is slot `(pointer + j) % k` |
| FifoPolicy.QueueElems | memory_manager.py:23 | the rotated view holds the same pages as the list |
| FifoPolicy.QueueWhileFilling | memory_manager.py:26-27 | while filling, the pointer is 0 and the list is already in arrival order |
| FifoPolicy.EvictIsDequeue | memory_manager.py:28-30 | overwriting the slot at the pointer and advancing it drops the oldest page and appends the new one |
| FifoPolicy.StepIsQueueStep | memory_manager.py:22-30 | one step of the rotating pointer is one step of the textbook FIFO queue, fault count included |
| FifoPolicy.RunIsQueueRun | memory_manager.py:22-30 | the whole replay matches the textbook FIFO queue: pages leave in insertion order |
| FifoPolicy.FaultsAreQueueFaults | memory_manager.py:14-32 | the FIFO fault count is the fault count of the textbook queue |
| FifoPolicy.FifoPageFaults | memory_manager.py:14-32 | `ValueError` for a non-positive frame count, otherwise the FIFO fault count, between the distinct pages and the references |
| LruPolicy.Recency | memory_manager.py:52 | `last_used.get(p, -1)`: the recorded index of a page, -1 for a page never recorded |
| LruPolicy.LeastRecentlyUsed | memory_manager.py:52 | a resident page with the smallest `last_used.get(p, -1)`, every earlier page in list order strictly more recent |
| LruPolicy.Step | memory_manager.py:43-55 | one LRU reference keeps the list within the frames |
| LruPolicy.Run | memory_manager.py:43-55 | replaying references keeps the list within the frames |
| LruPolicy.StepAccounts | memory_manager.py:43-55 | one LRU reference keeps the fault accounting |
| LruPolicy.RunAccounts | memory_manager.py:43-55 | replaying references keeps the fault accounting |
| LruPolicy.Faults | memory_manager.py:35-57 | the LRU fault count replayed from an empty list and index 0: distinct pages ≤ faults ≤ references, exactly the distinct count when they fit |
| LruPolicy.LastUse | memory_manager.py:43-55 | the position of the latest reference to a page: it holds the page, none later does, -1 exactly when the page never occurs |
| LruPolicy.LastUseAppend | memory_manager.py:43-55 | one more reference makes its own position the latest use of its page and changes no other page's |
| LruPolicy.StepRemembers | memory_manager.py:43-55 | hit or fault, a reference records its own index in `last_used` |
| LruPolicy.RunRemembers | memory_manager.py:43-55 | after any replay, `last_used` holds every page's latest reference position (or is absent for pages never seen) |
| LruPolicy.LeastRecentIsStrict | memory_manager.py:52-54 | in a reachable state the chosen victim was referenced strictly longer ago than every other resident page |
| LruPolicy.EvictsLeastRecent | memory_manager.py:52-54 | after any prefix that filled the frames, the next victim is strictly the least recently referenced resident page |
| LruPolicy.LruPageFaults | memory_manager.py:35-57 | `ValueError` for a non-positive frame count, otherwise the LRU fault count, between the distinct pages and the references |
| OptimalPolicy.NextUseOf | memory_manager.py:79-82 | `future_refs.index(p)` as the first future position holding the page, or infinity exactly when it never occurs |
| OptimalPolicy.FurthestIndex | memory_manager.py:84 | `max` over distances: nothing is farther than the chosen one, which is strictly farther than every earlier one |
| OptimalPolicy.NextUses | memory_manager.py:77-82 | the `next_use` table has exactly the resident pages as keys, each with its next-use distance |
| OptimalPolicy.FurthestPage | memory_manager.py:84-85 | a resident page whose next use no other resident page exceeds, strictly beyond every page before it in list order |
| OptimalPolicy.Step | memory_manager.py:67-86 | one Optimal reference keeps the list within the frames |
| OptimalPolicy.Run | memory_manager.py:67-86 | replaying references keeps the list within the frames |
| OptimalPolicy.StepAccounts | memory_manager.py:67-86 | one Optimal reference keeps the fault accounting |
| OptimalPolicy.RunAccounts | memory_manager.py:67-86 | replaying references keeps the fault accounting |
| OptimalPolicy.Faults | memory_manager.py:60-88 | the Optimal fault count replayed from an empty list: distinct pages ≤ faults ≤ references, exactly the distinct count when they fit |
| OptimalPolicy.VictimIsFurthest | memory_manager.py:76-86 | the victim is next used no sooner than any resident page, a page never used again is furthest of all, and ties go to the first page in list order |
| OptimalPolicy.NextUseTable | memory_manager.py:77-82 | the inner loop builds exactly the `next_use` table |
| OptimalPolicy.OptimalPageFaults | memory_manager.py:60-88 | `ValueError` for a non-positive frame count, otherwise the Optimal fault count, between the distinct pages and the references |
| MemoryManager.AlgorithmStats.AsMap | memory_manager.py:112-118 | the statistics dictionary has exactly the five keys of `simulate_memory` |
| MemoryManager.PageReferences | memory_manager.py:97 | the merged reference string: a single process's own references, every reference of every process occurs in it, and nothing else does |
| MemoryManager.PageReferencesAppend | memory_manager.py:97 | merging two batches merges their reference strings in order |
| MemoryManager.Tally | memory_manager.py:108-118 | non-empty references: the three policies' faults, the reference count, the LRU rate in [0, 1], each count between distinct pages and references |
| MemoryManager.SimulateMemory | memory_manager.py:91-118 | all zeros without references (frame count unchecked); `ValueError` for a non-positive frame count; otherwise the three fault counts on the merged string, its length and LRU faults / length in [0, 1] |
| MemoryManager.PoliciesAgreeWhenAllFit | memory_manager.py:108-115 | when the distinct pages fit in the frames the three policies all report the distinct-page count |
| DiskScheduler.FcfsTotal | disk_scheduler.py:14-21 | head travel serving the requests in the given order: 0 for none, and at least the distance from the start to any request served |
| DiskScheduler.FcfsSplit | disk_scheduler.py:18-20 | serving two lists in turn costs the two legs, the second starting at the first's last track |
| DiskScheduler.FcfsSeekTime | disk_scheduler.py:14-21 | 0 for no requests, otherwise the distance to the first request plus every consecutive distance, in arrival order |
| DiskScheduler.ClosestIndex | disk_scheduler.py:30 | a pending request nearest the head, strictly nearer than every earlier one (first among ties) |
| DiskScheduler.RemoveFirst | disk_scheduler.py:33 | `remove` shortens the list by one |
| DiskScheduler.RemoveFirstKeepsOrder | disk_scheduler.py:33 | `remove` takes out the first copy: earlier requests keep their positions and later ones move up by one, in order |
| DiskScheduler.RemoveFirstMultiset | disk_scheduler.py:33 | `remove` drops exactly one copy of the value and keeps everything else |
| DiskScheduler.SstfOrder | disk_scheduler.py:29-33 | one service per request |
| DiskScheduler.SstfTotal | disk_scheduler.py:24-35 | head travel along the SSTF service order: 0 for no requests, and at least the distance from the start to any request |
| DiskScheduler.SstfServesAll | disk_scheduler.py:29-33 | every request is served by the SSTF loop |
| DiskScheduler.SstfOrderIsPermutation | disk_scheduler.py:29-33 | SSTF serves every request exactly once: the service order is a permutation of the requests |
| DiskScheduler.SstfFirstIsNearest | disk_scheduler.py:30 | the first service is as near the head as any request |
| DiskScheduler.Pending | disk_scheduler.py:29-33 | the pending list after `i` services is `i` shorter |
| DiskScheduler.SstfServedShift | disk_scheduler.py:30-33 | the first `i` services are the first choice and then the first `i - 1` services of the rest |
| DiskScheduler.PendingIsUnserved | disk_scheduler.py:29-33 | before each service, the pending requests are exactly the requests minus those served |
| DiskScheduler.SstfOrderCons | disk_scheduler.py:30-33 | the order is the nearest request followed by the order of the rest from there |
| DiskScheduler.PendingShift | disk_scheduler.py:30-33 | what is pending before service `i` is what is pending before service `i - 1` of the rest |
| DiskScheduler.GreedyShift | disk_scheduler.py:30-32 | a greedy choice in the rest's order is a greedy choice in the whole order |
| DiskScheduler.GreedyFirst | disk_scheduler.py:30 | the first service is greedy |
| DiskScheduler.SstfIsGreedy | disk_scheduler.py:29-33 | every service is as near the previous head position as any request still pending then |
| DiskScheduler.GreedyLater | disk_scheduler.py:29-33 | the inductive step of the greedy property |
| DiskScheduler.SstfSeekTime | disk_scheduler.py:24-35 | the loop's total is the head travel along the SSTF service order |
| DiskScheduler.AtMostOneRequest | disk_scheduler.py:14-35 | both totals are 0 without requests and the distance to the one request with a single one |
| DiskScheduler.DiskStats.AsMap | disk_scheduler.py:53-58 | the statistics dictionary has exactly the four keys of `simulate_disk` |
| DiskScheduler.DiskRequests | disk_scheduler.py:42 | the merged request stream: a single process's own requests, every request of every process occurs in it, and nothing else does |
| DiskScheduler.DiskRequestsAppend | disk_scheduler.py:42 | merging two batches merges their request streams in order |
| DiskScheduler.SimulateDisk | disk_scheduler.py:38-58 | all zeros without requests; otherwise both totals on the merged stream, its length and FCFS total / length |
| Workload.Draw | workload.py:40-42 | `randint(lo, hi)` lies in `[lo, hi]`, both ends included |
| Workload.Draws | workload.py:41-42 | the next `count` draws in order, each inside `[lo, hi]` |
| Workload.ProcessAt | workload.py:40-49 | the record for one pid, drawn memory requirement, then page references, then disk requests, with the promised id, lengths and ranges |
| Workload.Generated | workload.py:39-52 | exactly `num_processes` records, the `i`-th being the record for pid `i + 1` |
| Workload.Rng.constructor | workload.py:37 | a fresh generator starts at draw 0 of the seed's stream |
| Workload.Rng.RandInt | workload.py:40 | one `randint` answers from the next draw and consumes it |
| Workload.Rng.RandInts | workload.py:41-42 | the list comprehension yields exactly `Draws` from the current position and consumes them |
| Workload.GeneratedShape | workload.py:39-50 | exactly `num_processes` records, pids 1.. in order, each with the requested lengths and every value in its inclusive range |
| Workload.SameDrawsSameBatch | workload.py:37-42 | the batch depends only on its draws: equal draw streams give the identical batch |
| Workload.GenerateWorkload | workload.py:20-52 | `ValueError` for a non-positive process count, then for a non-positive length, page count or request count; otherwise the draw-ordered batch with the promised shape and ranges |
| Analyzer.Get | analyzer.py:29-36 | `dict.get(key, default)`: the stored value for a present key, the default otherwise |
| Analyzer.MemoryPercent | analyzer.py:35 | a reported `memory_percent` as given, otherwise the fault rate times 100 |
| Analyzer.AnalyzePerformance | analyzer.py:17-60 | the label is one of four; RAM iff either memory test strictly exceeds its threshold; disk iff not RAM and FCFS > threshold or > 100 requests; inefficient iff neither and LRU ≠ 0 and FIFO > 1.25 LRU; balanced otherwise; echoed fields and exactly six context keys |
| Analyzer.EmptyMetricsAreBalanced | analyzer.py:29-46 | empty maps and non-negative thresholds give a balanced system |
| Analyzer.RamFromFaultRate | analyzer.py:35-40 | without `memory_percent` the RAM label depends on the fault rate alone |
| Analyzer.ThresholdIsExclusive | analyzer.py:39-40 | for any threshold, memory use exactly at the threshold percentage with a fault rate not above it is not a RAM bottleneck |
| Analyzer.DefaultThresholdIsExclusive | analyzer.py:21-40 | with the default thresholds, memory use of exactly 85% alone is not a RAM bottleneck |
| Analyzer.RamMonotone | analyzer.py:39-40 | a lower memory threshold never takes the RAM label away |
| Analyzer.DiskMonotone | analyzer.py:41-42 | a lower disk threshold never takes the disk label away |
| Analyzer.InefficientMeansFifoWorse | analyzer.py:43-44 | the inefficient label implies FIFO faulted strictly more than a non-negative LRU |
| Suggestion.GetSuggestion | suggestion.py:14-18 | the table's remedy for a listed label, the balanced advice otherwise; never empty |
| Suggestion.TableCoversProblemLabels | suggestion.py:7-11 | the table lists exactly the three problem labels |
| Suggestion.BalancedAdviceOnlyOffTable | suggestion.py:14-18 | the balanced advice is given exactly to labels off the table |
| Suggestion.AdviceMatchesAnalysis | suggestion.py:14-18 | the advice for a verdict is the balanced advice exactly when the verdict is a balanced system |
| Suggestion.LabelsAreCaseSensitive | suggestion.py:15 | a label differing only in letter case gets the balanced advice |
| Scenarios.FifoExample | memory_manager.py:14-32 | 1,2,3,4,1,2,5,1,2,3,4,5 with 3 frames: 9 FIFO faults |
| Scenarios.LruExample | memory_manager.py:35-57 | the same string: 10 LRU faults |
| Scenarios.OptimalExample | memory_manager.py:60-88 | the same string: 7 Optimal faults |
| Scenarios.SmallDiskExample | disk_scheduler.py:14-35 | head 0, requests 2,1,4: FCFS 6, SSTF 4 |
| Scenarios.TextbookDiskExample | disk_scheduler.py:14-35 | head 53, requests 98,183,37,122,14,124,65,67: FCFS 640, SSTF 236 |
| Scenarios.SstfCanLoseToFcfs | disk_scheduler.py:14-35 | head 10, requests 13,8,0: FCFS 16 but SSTF 20, so SSTF ≤ FCFS does not hold in general |
| Scenarios.PipelineMemory | memory_manager.py:91-118 | the one-process example batch with 3 frames: FIFO 9, LRU 10, Optimal 7, 12 references, rate 10/12 |
| Scenarios.PipelineDisk | disk_scheduler.py:38-58 | the example batch from track 53: FCFS 640, SSTF 236, 8 requests, mean seek 80 |
| Scenarios.PipelineExample | analyzer.py:39-44 | those statistics with default thresholds classify as a disk bottleneck and get the SSTF advice |

## Left out

- `gui.py`, `graphs.py`, `system_monitor.py` and `audio_report.py` are not part of this
  model. They hold widgets, timers, threads, plotting, system sampling and speech output.
  Their only bearing on the engine is that the classifier accepts arbitrary maps, which
  `AnalyzePerformance` does.
- Python's Mersenne Twister is not reproduced. A seed is a stream of raw draws
  (`nat -> nat`), and `randint(lo, hi)` is modelled as `lo + draw % (hi - lo + 1)`. Only
  the range, the draw order and the determinism in the seed are claimed.
- Workload.GenerateWorkload: requires `low <= high` for both ranges once the counts are valid.
  The source does not check this and leaves it to `randint`, which raises. `seed=None`
  (an unseeded generator) is an arbitrary stream, so `seed` has no default value in the
  model while the other parameters keep the source's defaults.
- Floating point is exact `real`. IEEE-754 rounding of `0.85 * 100`, `1.25 * lru` and the
  two divisions is not modelled.
- Belady optimality (Optimal ≤ LRU, Optimal ≤ FIFO) is not proved. The source does not
  assert it. The model proves only the victim rule and the shared fault bounds.
- Policies take `frames` and `last_used` as local values (`seq`, `map`) that the loops
  reassign. No object identity or aliasing is involved in the source either.
- The Python truthiness test `lru_faults and ...` is modelled as
  `lru != 0.0`. A NaN value cannot occur in `real`.
