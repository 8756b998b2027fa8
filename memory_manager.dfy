/** Page-replacement statistics over a whole batch, memory_manager.py `simulate_memory`. */
module MemoryManager {
  import opened Wrappers
  import opened Seqs
  import opened Workload
  import FifoPolicy
  import LruPolicy
  import OptimalPolicy

  /** The `AlgorithmStats` dictionary: the three fault counts, the reference count and the LRU fault rate. */
  datatype AlgorithmStats = AlgorithmStats(fifo: nat, lru: nat, optimal: nat, totalReferences: nat, pageFaultRate: real)
  {
    /** The dictionary in the classifier's key vocabulary. */
    function AsMap(): (m: map<string, real>)
      ensures m.Keys == {"FIFO", "LRU", "Optimal", "total_references", "page_fault_rate"}
    {
      map["FIFO" := fifo as real, "LRU" := lru as real, "Optimal" := optimal as real,
          "total_references" := totalReferences as real, "page_fault_rate" := pageFaultRate]
    }
  }

  /** The comprehension in `simulate_memory`: every process's page references, in batch order. */
  function PageReferences(workload: seq<ProcessWorkload>): (merged: seq<int>)
    ensures |workload| == 1 ==> merged == workload[0].pageReferences
    ensures forall i, x :: 0 <= i < |workload| && x in workload[i].pageReferences ==> x in merged
    ensures forall x :: x in merged ==> exists i :: 0 <= i < |workload| && x in workload[i].pageReferences
    decreases |workload|
  {
    if workload == [] then [] else workload[0].pageReferences + PageReferences(workload[1..])
  }

  /** Merging two batches merges their reference strings in the same order. */
  lemma {:induction false} PageReferencesAppend(a: seq<ProcessWorkload>, b: seq<ProcessWorkload>)
    ensures PageReferences(a + b) == PageReferences(a) + PageReferences(b)
    decreases |a|
  {
    if a != [] {
      assert (a + b)[1..] == a[1..] + b;
      PageReferencesAppend(a[1..], b);
    } else {
      assert a + b == b;
    }
  }

  /**
   * The statistics of a non-empty reference string: the three policies' faults, the
   * reference count and the LRU fault rate, with each count between the number of
   * distinct pages and the number of references.
   */
  function Tally(refs: seq<int>, frameCount: nat): (s: AlgorithmStats)
    requires refs != [] && frameCount > 0
    ensures s.fifo == FifoPolicy.Faults(refs, frameCount)
    ensures s.lru == LruPolicy.Faults(refs, frameCount)
    ensures s.optimal == OptimalPolicy.Faults(refs, frameCount)
    ensures s.totalReferences == |refs|
    ensures s.pageFaultRate == Ratio(s.lru, |refs|)
    ensures 0.0 <= s.pageFaultRate <= 1.0
    ensures var distinct := |Elems(refs)|;
            && distinct <= s.fifo <= |refs|
            && distinct <= s.lru <= |refs|
            && distinct <= s.optimal <= |refs|
  {
    var lru := LruPolicy.Faults(refs, frameCount);
    AlgorithmStats(FifoPolicy.Faults(refs, frameCount), lru, OptimalPolicy.Faults(refs, frameCount),
                   |refs|, Ratio(lru, |refs|))
  }

  /**
   * `simulate_memory`: all zeros for a batch without page references (the frame count is
   * then never looked at); otherwise the three policies' faults on the merged reference
   * string, its length and the LRU fault rate. A non-positive frame count with references
   * present is the policies' `ValueError`.
   */
  function SimulateMemory(workload: seq<ProcessWorkload>, frameCount: int := 12): (r: Result<AlgorithmStats>)
    ensures PageReferences(workload) == [] ==> r == Ok(AlgorithmStats(0, 0, 0, 0, 0.0))
    ensures PageReferences(workload) != [] && frameCount <= 0 ==>
              r == Err(InvalidParameter("frame_count must be positive"))
    ensures PageReferences(workload) != [] && frameCount > 0 ==>
              var refs := PageReferences(workload);
              && r.Ok?
              && r.value.fifo == FifoPolicy.Faults(refs, frameCount)
              && r.value.lru == LruPolicy.Faults(refs, frameCount)
              && r.value.optimal == OptimalPolicy.Faults(refs, frameCount)
              && r.value.totalReferences == |refs|
              && r.value.pageFaultRate == Ratio(r.value.lru, |refs|)
    ensures r.Ok? ==> 0.0 <= r.value.pageFaultRate <= 1.0
    ensures r.Ok? ==>
              var s := r.value;
              var distinct := |Elems(PageReferences(workload))|;
              && (s.totalReferences > 0 ==> distinct <= s.fifo && distinct <= s.lru && distinct <= s.optimal)
              && s.fifo <= s.totalReferences && s.lru <= s.totalReferences && s.optimal <= s.totalReferences
  {
    var refs := PageReferences(workload);
    if refs == [] then Ok(AlgorithmStats(0, 0, 0, 0, 0.0))
    else if frameCount <= 0 then Err(InvalidParameter("frame_count must be positive"))
    else Ok(Tally(refs, frameCount))
  }

  /**
   * When every distinct page of the batch fits in the frames, the three policies agree:
   * each faults exactly once per distinct page.
   */
  lemma PoliciesAgreeWhenAllFit(workload: seq<ProcessWorkload>, frameCount: int)
    requires PageReferences(workload) != [] && frameCount > 0
    requires |Elems(PageReferences(workload))| <= frameCount
    ensures SimulateMemory(workload, frameCount).Ok?
    ensures var s := SimulateMemory(workload, frameCount).value;
            s.fifo == s.lru == s.optimal == |Elems(PageReferences(workload))|
  {
  }
}
