/** Remedies for each bottleneck label, suggestion.py. */
module Suggestion {
  import opened Analyzer

  /** The `SUGGESTIONS` table: one remedy per problem label. */
  const Suggestions: map<string, string> := map[
    "RAM Bottleneck" := "Increase available RAM or switch to an LRU-based paging strategy.",
    "Disk I/O Bottleneck" := "Adopt SSTF scheduling or move intensive workloads to SSD storage.",
    "Inefficient Page Replacement" := "Replace FIFO with LRU or Optimal where possible."
  ]

  /** The advice for any label the table does not list. */
  const BalancedAdvice := "System is balanced. Continue monitoring workload trends for emerging bottlenecks."

  /** `get_suggestion`: the table's remedy for a known label, the balanced advice otherwise. */
  function GetSuggestion(bottleneck: string): (r: string)
    ensures |r| > 0
    ensures bottleneck in Suggestions ==> r == Suggestions[bottleneck]
    ensures bottleneck !in Suggestions ==> r == BalancedAdvice
  {
    if bottleneck in Suggestions then Suggestions[bottleneck] else BalancedAdvice
  }

  /** The table lists exactly the three problem labels the classifier produces. */
  lemma TableCoversProblemLabels()
    ensures Suggestions.Keys == Labels - {BalancedSystem}
  {
  }

  /**
   * The balanced advice is given exactly to labels outside the table: no problem label
   * is told the system is balanced.
   */
  lemma BalancedAdviceOnlyOffTable(bottleneck: string)
    ensures GetSuggestion(bottleneck) == BalancedAdvice <==> bottleneck !in Suggestions
  {
    if bottleneck in Suggestions {
      assert Suggestions[bottleneck] != BalancedAdvice;
    }
  }

  /**
   * Every classification gets advice that names its own problem: the balanced advice for
   * a balanced system and a distinct table remedy for each of the three problems.
   */
  lemma AdviceMatchesAnalysis(memoryStats: Metrics, diskStats: Metrics, diskThreshold: real, memoryThreshold: real)
    ensures var verdict := AnalyzePerformance(memoryStats, diskStats, diskThreshold, memoryThreshold).bottleneck;
            (GetSuggestion(verdict) == BalancedAdvice <==> verdict == BalancedSystem)
  {
    var verdict := AnalyzePerformance(memoryStats, diskStats, diskThreshold, memoryThreshold).bottleneck;
    TableCoversProblemLabels();
    BalancedAdviceOnlyOffTable(verdict);
  }

  /** Labels are matched exactly: a label differing only in letter case gets the balanced advice. */
  lemma LabelsAreCaseSensitive()
    ensures GetSuggestion("ram bottleneck") == BalancedAdvice
  {
  }
}
