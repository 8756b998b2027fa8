/** Bottleneck classification, analyzer.py: turns memory and disk statistics into one label. */
module Analyzer {
  /** A statistics dictionary as the classifier receives it: names to numbers. */
  type Metrics = map<string, real>

  const RamBottleneck := "RAM Bottleneck"
  const DiskBottleneck := "Disk I/O Bottleneck"
  const InefficientReplacement := "Inefficient Page Replacement"
  const BalancedSystem := "Balanced System"

  /** The four labels the classifier can produce. */
  const Labels: set<string> := {RamBottleneck, DiskBottleneck, InefficientReplacement, BalancedSystem}

  /** The context keys every analysis carries. */
  const ContextKeys: set<string> :=
    {"fifo_faults", "lru_faults", "optimal_faults", "disk_sstf", "request_count", "memory_percent"}

  /** `dict.get(key, default)`. */
  function Get(m: Metrics, key: string, default: real): (r: real)
    ensures key in m ==> r == m[key]
    ensures key !in m ==> r == default
  {
    if key in m then m[key] else default
  }

  /** The `AnalysisResult` record: the label, the two headline figures and the supporting context. */
  datatype AnalysisResult = AnalysisResult(
    bottleneck: string,
    pageFaultRate: real,
    diskSeekTime: real,
    context: map<string, real>)

  /**
   * The memory figure the classifier compares with the threshold: a reported
   * `memory_percent` when there is one, otherwise the fault rate as a percentage.
   */
  function MemoryPercent(memoryStats: Metrics): (r: real)
    ensures "memory_percent" in memoryStats ==> r == memoryStats["memory_percent"]
    ensures "memory_percent" !in memoryStats ==> r == Get(memoryStats, "page_fault_rate", 0.0) * 100.0
  {
    Get(memoryStats, "memory_percent", Get(memoryStats, "page_fault_rate", 0.0) * 100.0)
  }

  /** The RAM test: memory use above the threshold percentage, or a fault rate above the threshold. */
  predicate MemoryPressure(memoryStats: Metrics, memoryThreshold: real)
  {
    MemoryPercent(memoryStats) > memoryThreshold * 100.0
    || Get(memoryStats, "page_fault_rate", 0.0) > memoryThreshold
  }

  /** The disk test: FCFS seek above the threshold, or more than 100 requests. */
  predicate DiskPressure(diskStats: Metrics, diskThreshold: real)
  {
    Get(diskStats, "FCFS", 0.0) > diskThreshold || Get(diskStats, "request_count", 0.0) > 100.0
  }

  /** The replacement test: LRU faulted at all, and FIFO faulted more than 1.25 times as often. */
  predicate ReplacementGap(memoryStats: Metrics)
  {
    var lru := Get(memoryStats, "LRU", 0.0);
    lru != 0.0 && Get(memoryStats, "FIFO", 0.0) > lru * 1.25
  }

  /**
   * `analyze_performance`: the first of RAM, disk and replacement trouble that the
   * statistics show, in that priority, or a balanced system when none does; the result
   * echoes the fault rate and FCFS seek and carries the six context figures.
   */
  function AnalyzePerformance(memoryStats: Metrics, diskStats: Metrics,
                              diskThreshold: real := 500.0, memoryThreshold: real := 0.85): (r: AnalysisResult)
    ensures r.bottleneck in Labels
    ensures r.bottleneck == RamBottleneck <==> MemoryPressure(memoryStats, memoryThreshold)
    ensures r.bottleneck == DiskBottleneck <==>
              !MemoryPressure(memoryStats, memoryThreshold) && DiskPressure(diskStats, diskThreshold)
    ensures r.bottleneck == InefficientReplacement <==>
              && !MemoryPressure(memoryStats, memoryThreshold)
              && !DiskPressure(diskStats, diskThreshold)
              && ReplacementGap(memoryStats)
    ensures r.bottleneck == BalancedSystem <==>
              && !MemoryPressure(memoryStats, memoryThreshold)
              && !DiskPressure(diskStats, diskThreshold)
              && !ReplacementGap(memoryStats)
    ensures r.pageFaultRate == Get(memoryStats, "page_fault_rate", 0.0)
    ensures r.diskSeekTime == Get(diskStats, "FCFS", 0.0)
    ensures r.context.Keys == ContextKeys
    ensures && r.context["fifo_faults"] == Get(memoryStats, "FIFO", 0.0)
            && r.context["lru_faults"] == Get(memoryStats, "LRU", 0.0)
            && r.context["optimal_faults"] == Get(memoryStats, "Optimal", 0.0)
            && r.context["disk_sstf"] == Get(diskStats, "SSTF", 0.0)
            && r.context["request_count"] == Get(diskStats, "request_count", 0.0)
            && r.context["memory_percent"] == MemoryPercent(memoryStats)
  {
    var pageFaultRate := Get(memoryStats, "page_fault_rate", 0.0);
    var fifoFaults := Get(memoryStats, "FIFO", 0.0);
    var lruFaults := Get(memoryStats, "LRU", 0.0);
    var diskSeekTime := Get(diskStats, "FCFS", 0.0);
    var memoryPercent := Get(memoryStats, "memory_percent", pageFaultRate * 100.0);
    var diskIoCount := Get(diskStats, "request_count", 0.0);
    var bottleneck :=
      if memoryPercent > memoryThreshold * 100.0 || pageFaultRate > memoryThreshold then RamBottleneck
      else if diskSeekTime > diskThreshold || diskIoCount > 100.0 then DiskBottleneck
      else if lruFaults != 0.0 && fifoFaults > lruFaults * 1.25 then InefficientReplacement
      else BalancedSystem;
    AnalysisResult(
      bottleneck, pageFaultRate, diskSeekTime,
      map["fifo_faults" := fifoFaults, "lru_faults" := lruFaults,
          "optimal_faults" := Get(memoryStats, "Optimal", 0.0),
          "disk_sstf" := Get(diskStats, "SSTF", 0.0),
          "request_count" := diskIoCount, "memory_percent" := memoryPercent])
  }

  /** With no statistics at all and non-negative thresholds, the system reads as balanced. */
  lemma EmptyMetricsAreBalanced(diskThreshold: real, memoryThreshold: real)
    requires diskThreshold >= 0.0 && memoryThreshold >= 0.0
    ensures AnalyzePerformance(map[], map[], diskThreshold, memoryThreshold).bottleneck == BalancedSystem
  {
    assert !MemoryPressure(map[], memoryThreshold);
  }

  /** Without a reported `memory_percent`, the RAM label depends on the fault rate alone. */
  lemma RamFromFaultRate(memoryStats: Metrics, diskStats: Metrics, diskThreshold: real, memoryThreshold: real)
    requires "memory_percent" !in memoryStats
    ensures AnalyzePerformance(memoryStats, diskStats, diskThreshold, memoryThreshold).bottleneck == RamBottleneck
            <==> Get(memoryStats, "page_fault_rate", 0.0) > memoryThreshold
  {
    var rate := Get(memoryStats, "page_fault_rate", 0.0);
    assert MemoryPercent(memoryStats) == rate * 100.0;
    assert rate * 100.0 > memoryThreshold * 100.0 <==> rate > memoryThreshold;
  }

  /**
   * Both RAM comparisons are strict: memory use exactly at the threshold percentage, with a
   * fault rate no higher than the threshold, is not a RAM bottleneck.
   */
  lemma ThresholdIsExclusive(memoryStats: Metrics, diskStats: Metrics, diskThreshold: real, memoryThreshold: real)
    requires "memory_percent" in memoryStats && memoryStats["memory_percent"] == memoryThreshold * 100.0
    requires Get(memoryStats, "page_fault_rate", 0.0) <= memoryThreshold
    ensures AnalyzePerformance(memoryStats, diskStats, diskThreshold, memoryThreshold).bottleneck != RamBottleneck
  {
    assert !MemoryPressure(memoryStats, memoryThreshold);
  }

  /** The default threshold: memory use of exactly 85% alone is not a RAM bottleneck. */
  lemma DefaultThresholdIsExclusive(diskStats: Metrics)
    ensures AnalyzePerformance(map["memory_percent" := 85.0], diskStats).bottleneck != RamBottleneck
  {
    ThresholdIsExclusive(map["memory_percent" := 85.0], diskStats, 500.0, 0.85);
  }

  /** Lowering the memory threshold never takes a RAM label away. */
  lemma RamMonotone(memoryStats: Metrics, diskStats: Metrics, diskThreshold: real, low: real, high: real)
    requires low <= high
    requires AnalyzePerformance(memoryStats, diskStats, diskThreshold, high).bottleneck == RamBottleneck
    ensures AnalyzePerformance(memoryStats, diskStats, diskThreshold, low).bottleneck == RamBottleneck
  {
    assert MemoryPressure(memoryStats, high);
    assert low * 100.0 <= high * 100.0;
  }

  /** Lowering the disk threshold never takes a disk label away. */
  lemma DiskMonotone(memoryStats: Metrics, diskStats: Metrics, low: real, high: real, memoryThreshold: real)
    requires low <= high
    requires AnalyzePerformance(memoryStats, diskStats, high, memoryThreshold).bottleneck == DiskBottleneck
    ensures AnalyzePerformance(memoryStats, diskStats, low, memoryThreshold).bottleneck == DiskBottleneck
  {
    assert DiskPressure(diskStats, high);
  }

  /** An inefficient-replacement label means FIFO faulted strictly more often than LRU. */
  lemma InefficientMeansFifoWorse(memoryStats: Metrics, diskStats: Metrics, diskThreshold: real, memoryThreshold: real)
    requires AnalyzePerformance(memoryStats, diskStats, diskThreshold, memoryThreshold).bottleneck == InefficientReplacement
    requires Get(memoryStats, "LRU", 0.0) >= 0.0
    ensures Get(memoryStats, "FIFO", 0.0) > Get(memoryStats, "LRU", 0.0)
  {
    assert ReplacementGap(memoryStats);
  }
}
