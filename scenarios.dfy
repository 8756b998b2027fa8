/**
 * Worked instances of the simulators, replayed step by step: the classic twelve-reference
 * string under the three replacement policies, three head-scheduling runs, and one batch
 * carried through simulation, classification and advice.
 */
module Scenarios {
  import opened Wrappers
  import opened Seqs
  import opened PageFrames
  import opened Workload
  import FifoPolicy
  import LruPolicy
  import OptimalPolicy
  import DiskScheduler
  import MemoryManager
  import Analyzer
  import Suggestion

  /** The FIFO example from reference 0 on: 0 faults so far, resident [], pointer at slot 0. */
  lemma FifoFrom0(st: FifoPolicy.FifoState, refs: seq<int>)
    requires |st.frames| == 0
    requires st.pointer == 0 && st.faults == 0
    requires |refs| == 12 && refs[0] == 1 && refs[1] == 2 && refs[2] == 3 && refs[3] == 4 && refs[4] == 1 && refs[5] == 2 && refs[6] == 5 && refs[7] == 1 && refs[8] == 2 && refs[9] == 3 && refs[10] == 4 && refs[11] == 5
    ensures FifoPolicy.Run(st, refs, 3).faults == 9
  {
    var next := FifoPolicy.Step(st, refs[0], 3);
    assert |next.frames| == 1 && next.frames[0] == 1;
    FifoFrom1(next, refs[1..]);
  }

  /** The FIFO example from reference 1 on: 1 faults so far, resident [1], pointer at slot 0. */
  lemma FifoFrom1(st: FifoPolicy.FifoState, refs: seq<int>)
    requires |st.frames| == 1 && st.frames[0] == 1
    requires st.pointer == 0 && st.faults == 1
    requires |refs| == 11 && refs[0] == 2 && refs[1] == 3 && refs[2] == 4 && refs[3] == 1 && refs[4] == 2 && refs[5] == 5 && refs[6] == 1 && refs[7] == 2 && refs[8] == 3 && refs[9] == 4 && refs[10] == 5
    ensures FifoPolicy.Run(st, refs, 3).faults == 9
  {
    assert st.frames[0] != 2;
    var next := FifoPolicy.Step(st, refs[0], 3);
    assert |next.frames| == 2 && next.frames[0] == 1 && next.frames[1] == 2;
    FifoFrom2(next, refs[1..]);
  }

  /** The FIFO example from reference 2 on: 2 faults so far, resident [1, 2], pointer at slot 0. */
  lemma FifoFrom2(st: FifoPolicy.FifoState, refs: seq<int>)
    requires |st.frames| == 2 && st.frames[0] == 1 && st.frames[1] == 2
    requires st.pointer == 0 && st.faults == 2
    requires |refs| == 10 && refs[0] == 3 && refs[1] == 4 && refs[2] == 1 && refs[3] == 2 && refs[4] == 5 && refs[5] == 1 && refs[6] == 2 && refs[7] == 3 && refs[8] == 4 && refs[9] == 5
    ensures FifoPolicy.Run(st, refs, 3).faults == 9
  {
    assert st.frames[0] != 3;
    assert st.frames[1] != 3;
    var next := FifoPolicy.Step(st, refs[0], 3);
    assert |next.frames| == 3 && next.frames[0] == 1 && next.frames[1] == 2 && next.frames[2] == 3;
    FifoFrom3(next, refs[1..]);
  }

  /** The FIFO example from reference 3 on: 3 faults so far, resident [1, 2, 3], pointer at slot 0. */
  lemma FifoFrom3(st: FifoPolicy.FifoState, refs: seq<int>)
    requires |st.frames| == 3 && st.frames[0] == 1 && st.frames[1] == 2 && st.frames[2] == 3
    requires st.pointer == 0 && st.faults == 3
    requires |refs| == 9 && refs[0] == 4 && refs[1] == 1 && refs[2] == 2 && refs[3] == 5 && refs[4] == 1 && refs[5] == 2 && refs[6] == 3 && refs[7] == 4 && refs[8] == 5
    ensures FifoPolicy.Run(st, refs, 3).faults == 9
  {
    assert st.frames[0] != 4;
    assert st.frames[1] != 4;
    assert st.frames[2] != 4;
    var next := FifoPolicy.Step(st, refs[0], 3);
    assert |next.frames| == 3 && next.frames[0] == 4 && next.frames[1] == 2 && next.frames[2] == 3;
    FifoFrom4(next, refs[1..]);
  }

  /** The FIFO example from reference 4 on: 4 faults so far, resident [4, 2, 3], pointer at slot 1. */
  lemma FifoFrom4(st: FifoPolicy.FifoState, refs: seq<int>)
    requires |st.frames| == 3 && st.frames[0] == 4 && st.frames[1] == 2 && st.frames[2] == 3
    requires st.pointer == 1 && st.faults == 4
    requires |refs| == 8 && refs[0] == 1 && refs[1] == 2 && refs[2] == 5 && refs[3] == 1 && refs[4] == 2 && refs[5] == 3 && refs[6] == 4 && refs[7] == 5
    ensures FifoPolicy.Run(st, refs, 3).faults == 9
  {
    assert st.frames[0] != 1;
    assert st.frames[1] != 1;
    assert st.frames[2] != 1;
    var next := FifoPolicy.Step(st, refs[0], 3);
    assert |next.frames| == 3 && next.frames[0] == 4 && next.frames[1] == 1 && next.frames[2] == 3;
    FifoFrom5(next, refs[1..]);
  }

  /** The FIFO example from reference 5 on: 5 faults so far, resident [4, 1, 3], pointer at slot 2. */
  lemma FifoFrom5(st: FifoPolicy.FifoState, refs: seq<int>)
    requires |st.frames| == 3 && st.frames[0] == 4 && st.frames[1] == 1 && st.frames[2] == 3
    requires st.pointer == 2 && st.faults == 5
    requires |refs| == 7 && refs[0] == 2 && refs[1] == 5 && refs[2] == 1 && refs[3] == 2 && refs[4] == 3 && refs[5] == 4 && refs[6] == 5
    ensures FifoPolicy.Run(st, refs, 3).faults == 9
  {
    assert st.frames[0] != 2;
    assert st.frames[1] != 2;
    assert st.frames[2] != 2;
    var next := FifoPolicy.Step(st, refs[0], 3);
    assert |next.frames| == 3 && next.frames[0] == 4 && next.frames[1] == 1 && next.frames[2] == 2;
    FifoFrom6(next, refs[1..]);
  }

  /** The FIFO example from reference 6 on: 6 faults so far, resident [4, 1, 2], pointer at slot 0. */
  lemma FifoFrom6(st: FifoPolicy.FifoState, refs: seq<int>)
    requires |st.frames| == 3 && st.frames[0] == 4 && st.frames[1] == 1 && st.frames[2] == 2
    requires st.pointer == 0 && st.faults == 6
    requires |refs| == 6 && refs[0] == 5 && refs[1] == 1 && refs[2] == 2 && refs[3] == 3 && refs[4] == 4 && refs[5] == 5
    ensures FifoPolicy.Run(st, refs, 3).faults == 9
  {
    assert st.frames[0] != 5;
    assert st.frames[1] != 5;
    assert st.frames[2] != 5;
    var next := FifoPolicy.Step(st, refs[0], 3);
    assert |next.frames| == 3 && next.frames[0] == 5 && next.frames[1] == 1 && next.frames[2] == 2;
    FifoFrom7(next, refs[1..]);
  }

  /** The FIFO example from reference 7 on: 7 faults so far, resident [5, 1, 2], pointer at slot 1. */
  lemma FifoFrom7(st: FifoPolicy.FifoState, refs: seq<int>)
    requires |st.frames| == 3 && st.frames[0] == 5 && st.frames[1] == 1 && st.frames[2] == 2
    requires st.pointer == 1 && st.faults == 7
    requires |refs| == 5 && refs[0] == 1 && refs[1] == 2 && refs[2] == 3 && refs[3] == 4 && refs[4] == 5
    ensures FifoPolicy.Run(st, refs, 3).faults == 9
  {
    assert st.frames[1] == 1;
    var next := FifoPolicy.Step(st, refs[0], 3);
    assert |next.frames| == 3 && next.frames[0] == 5 && next.frames[1] == 1 && next.frames[2] == 2;
    FifoFrom8(next, refs[1..]);
  }

  /** The FIFO example from reference 8 on: 7 faults so far, resident [5, 1, 2], pointer at slot 1. */
  lemma FifoFrom8(st: FifoPolicy.FifoState, refs: seq<int>)
    requires |st.frames| == 3 && st.frames[0] == 5 && st.frames[1] == 1 && st.frames[2] == 2
    requires st.pointer == 1 && st.faults == 7
    requires |refs| == 4 && refs[0] == 2 && refs[1] == 3 && refs[2] == 4 && refs[3] == 5
    ensures FifoPolicy.Run(st, refs, 3).faults == 9
  {
    assert st.frames[2] == 2;
    var next := FifoPolicy.Step(st, refs[0], 3);
    assert |next.frames| == 3 && next.frames[0] == 5 && next.frames[1] == 1 && next.frames[2] == 2;
    FifoFrom9(next, refs[1..]);
  }

  /** The FIFO example from reference 9 on: 7 faults so far, resident [5, 1, 2], pointer at slot 1. */
  lemma FifoFrom9(st: FifoPolicy.FifoState, refs: seq<int>)
    requires |st.frames| == 3 && st.frames[0] == 5 && st.frames[1] == 1 && st.frames[2] == 2
    requires st.pointer == 1 && st.faults == 7
    requires |refs| == 3 && refs[0] == 3 && refs[1] == 4 && refs[2] == 5
    ensures FifoPolicy.Run(st, refs, 3).faults == 9
  {
    assert st.frames[0] != 3;
    assert st.frames[1] != 3;
    assert st.frames[2] != 3;
    var next := FifoPolicy.Step(st, refs[0], 3);
    assert |next.frames| == 3 && next.frames[0] == 5 && next.frames[1] == 3 && next.frames[2] == 2;
    FifoFrom10(next, refs[1..]);
  }

  /** The FIFO example from reference 10 on: 8 faults so far, resident [5, 3, 2], pointer at slot 2. */
  lemma FifoFrom10(st: FifoPolicy.FifoState, refs: seq<int>)
    requires |st.frames| == 3 && st.frames[0] == 5 && st.frames[1] == 3 && st.frames[2] == 2
    requires st.pointer == 2 && st.faults == 8
    requires |refs| == 2 && refs[0] == 4 && refs[1] == 5
    ensures FifoPolicy.Run(st, refs, 3).faults == 9
  {
    assert st.frames[0] != 4;
    assert st.frames[1] != 4;
    assert st.frames[2] != 4;
    var next := FifoPolicy.Step(st, refs[0], 3);
    assert |next.frames| == 3 && next.frames[0] == 5 && next.frames[1] == 3 && next.frames[2] == 4;
    FifoFrom11(next, refs[1..]);
  }

  /** The FIFO example from reference 11 on: 9 faults so far, resident [5, 3, 4], pointer at slot 0. */
  lemma FifoFrom11(st: FifoPolicy.FifoState, refs: seq<int>)
    requires |st.frames| == 3 && st.frames[0] == 5 && st.frames[1] == 3 && st.frames[2] == 4
    requires st.pointer == 0 && st.faults == 9
    requires |refs| == 1 && refs[0] == 5
    ensures FifoPolicy.Run(st, refs, 3).faults == 9
  {
    assert st.frames[0] == 5;
    var next := FifoPolicy.Step(st, refs[0], 3);
    assert |next.frames| == 3 && next.frames[0] == 5 && next.frames[1] == 3 && next.frames[2] == 4;
    FifoFrom12(next, refs[1..]);
  }

  /** The FIFO example from reference 12 on: 9 faults so far, resident [5, 3, 4], pointer at slot 0. */
  lemma FifoFrom12(st: FifoPolicy.FifoState, refs: seq<int>)
    requires |st.frames| == 3 && st.frames[0] == 5 && st.frames[1] == 3 && st.frames[2] == 4
    requires st.pointer == 0 && st.faults == 9
    requires |refs| == 0
    ensures FifoPolicy.Run(st, refs, 3).faults == 9
  {
  }

  /** FIFO on the classic reference string with three frames faults 9 times. */
  lemma FifoExample(refs: seq<int>)
    requires |refs| == 12 && refs[0] == 1 && refs[1] == 2 && refs[2] == 3 && refs[3] == 4 && refs[4] == 1 && refs[5] == 2 && refs[6] == 5 && refs[7] == 1 && refs[8] == 2 && refs[9] == 3 && refs[10] == 4 && refs[11] == 5
    ensures FifoPolicy.Faults(refs, 3) == 9
  {
    FifoFrom0(FifoPolicy.Start, refs);
  }

  /** The LRU example from reference 0 on: 0 faults so far, resident []. */
  lemma LruFrom0(st: LruPolicy.LruState, refs: seq<int>, idx: int)
    requires |st.frames| == 0
    requires st.faults == 0
    requires |refs| == 12 && refs[0] == 1 && refs[1] == 2 && refs[2] == 3 && refs[3] == 4 && refs[4] == 1 && refs[5] == 2 && refs[6] == 5 && refs[7] == 1 && refs[8] == 2 && refs[9] == 3 && refs[10] == 4 && refs[11] == 5
    requires idx == 0
    ensures LruPolicy.Run(st, refs, idx, 3).faults == 10
  {
    var next := LruPolicy.Step(st, refs[0], idx, 3);
    assert |next.frames| == 1 && next.frames[0] == 1;
    LruFrom1(next, refs[1..], idx + 1);
  }

  /** The LRU example from reference 1 on: 1 faults so far, resident [1]. */
  lemma LruFrom1(st: LruPolicy.LruState, refs: seq<int>, idx: int)
    requires |st.frames| == 1 && st.frames[0] == 1
    requires LruPolicy.Recency(st.lastUsed, 1) == 0
    requires st.faults == 1
    requires |refs| == 11 && refs[0] == 2 && refs[1] == 3 && refs[2] == 4 && refs[3] == 1 && refs[4] == 2 && refs[5] == 5 && refs[6] == 1 && refs[7] == 2 && refs[8] == 3 && refs[9] == 4 && refs[10] == 5
    requires idx == 1
    ensures LruPolicy.Run(st, refs, idx, 3).faults == 10
  {
    assert st.frames[0] != 2;
    var next := LruPolicy.Step(st, refs[0], idx, 3);
    assert |next.frames| == 2 && next.frames[0] == 1 && next.frames[1] == 2;
    LruFrom2(next, refs[1..], idx + 1);
  }

  /** The LRU example from reference 2 on: 2 faults so far, resident [1, 2]. */
  lemma LruFrom2(st: LruPolicy.LruState, refs: seq<int>, idx: int)
    requires |st.frames| == 2 && st.frames[0] == 1 && st.frames[1] == 2
    requires LruPolicy.Recency(st.lastUsed, 1) == 0 && LruPolicy.Recency(st.lastUsed, 2) == 1
    requires st.faults == 2
    requires |refs| == 10 && refs[0] == 3 && refs[1] == 4 && refs[2] == 1 && refs[3] == 2 && refs[4] == 5 && refs[5] == 1 && refs[6] == 2 && refs[7] == 3 && refs[8] == 4 && refs[9] == 5
    requires idx == 2
    ensures LruPolicy.Run(st, refs, idx, 3).faults == 10
  {
    assert st.frames[0] != 3;
    assert st.frames[1] != 3;
    var next := LruPolicy.Step(st, refs[0], idx, 3);
    assert |next.frames| == 3 && next.frames[0] == 1 && next.frames[1] == 2 && next.frames[2] == 3;
    LruFrom3(next, refs[1..], idx + 1);
  }

  /** The LRU example from reference 3 on: 3 faults so far, resident [1, 2, 3]. */
  lemma LruFrom3(st: LruPolicy.LruState, refs: seq<int>, idx: int)
    requires |st.frames| == 3 && st.frames[0] == 1 && st.frames[1] == 2 && st.frames[2] == 3
    requires LruPolicy.Recency(st.lastUsed, 1) == 0 && LruPolicy.Recency(st.lastUsed, 2) == 1 && LruPolicy.Recency(st.lastUsed, 3) == 2
    requires st.faults == 3
    requires |refs| == 9 && refs[0] == 4 && refs[1] == 1 && refs[2] == 2 && refs[3] == 5 && refs[4] == 1 && refs[5] == 2 && refs[6] == 3 && refs[7] == 4 && refs[8] == 5
    requires idx == 3
    ensures LruPolicy.Run(st, refs, idx, 3).faults == 10
  {
    assert st.frames[0] != 4;
    assert st.frames[1] != 4;
    assert st.frames[2] != 4;
    var victim := LruPolicy.LeastRecentlyUsed(st.frames, st.lastUsed);
    var f0, f1, f2 := st.frames[0], st.frames[1], st.frames[2];
    assert victim == f0 || victim == f1 || victim == f2;
    assert LruPolicy.Recency(st.lastUsed, victim) <= LruPolicy.Recency(st.lastUsed, st.frames[0]);
    assert victim == 1;
    assert IndexOf(st.frames, 1) == 0;
    var next := LruPolicy.Step(st, refs[0], idx, 3);
    assert |next.frames| == 3 && next.frames[0] == 4 && next.frames[1] == 2 && next.frames[2] == 3;
    LruFrom4(next, refs[1..], idx + 1);
  }

  /** The LRU example from reference 4 on: 4 faults so far, resident [4, 2, 3]. */
  lemma LruFrom4(st: LruPolicy.LruState, refs: seq<int>, idx: int)
    requires |st.frames| == 3 && st.frames[0] == 4 && st.frames[1] == 2 && st.frames[2] == 3
    requires LruPolicy.Recency(st.lastUsed, 4) == 3 && LruPolicy.Recency(st.lastUsed, 2) == 1 && LruPolicy.Recency(st.lastUsed, 3) == 2
    requires st.faults == 4
    requires |refs| == 8 && refs[0] == 1 && refs[1] == 2 && refs[2] == 5 && refs[3] == 1 && refs[4] == 2 && refs[5] == 3 && refs[6] == 4 && refs[7] == 5
    requires idx == 4
    ensures LruPolicy.Run(st, refs, idx, 3).faults == 10
  {
    assert st.frames[0] != 1;
    assert st.frames[1] != 1;
    assert st.frames[2] != 1;
    var victim := LruPolicy.LeastRecentlyUsed(st.frames, st.lastUsed);
    var f0, f1, f2 := st.frames[0], st.frames[1], st.frames[2];
    assert victim == f0 || victim == f1 || victim == f2;
    assert LruPolicy.Recency(st.lastUsed, victim) <= LruPolicy.Recency(st.lastUsed, st.frames[1]);
    assert victim == 2;
    assert IndexOf(st.frames, 2) == 1;
    var next := LruPolicy.Step(st, refs[0], idx, 3);
    assert |next.frames| == 3 && next.frames[0] == 4 && next.frames[1] == 1 && next.frames[2] == 3;
    LruFrom5(next, refs[1..], idx + 1);
  }

  /** The LRU example from reference 5 on: 5 faults so far, resident [4, 1, 3]. */
  lemma LruFrom5(st: LruPolicy.LruState, refs: seq<int>, idx: int)
    requires |st.frames| == 3 && st.frames[0] == 4 && st.frames[1] == 1 && st.frames[2] == 3
    requires LruPolicy.Recency(st.lastUsed, 4) == 3 && LruPolicy.Recency(st.lastUsed, 1) == 4 && LruPolicy.Recency(st.lastUsed, 3) == 2
    requires st.faults == 5
    requires |refs| == 7 && refs[0] == 2 && refs[1] == 5 && refs[2] == 1 && refs[3] == 2 && refs[4] == 3 && refs[5] == 4 && refs[6] == 5
    requires idx == 5
    ensures LruPolicy.Run(st, refs, idx, 3).faults == 10
  {
    assert st.frames[0] != 2;
    assert st.frames[1] != 2;
    assert st.frames[2] != 2;
    var victim := LruPolicy.LeastRecentlyUsed(st.frames, st.lastUsed);
    var f0, f1, f2 := st.frames[0], st.frames[1], st.frames[2];
    assert victim == f0 || victim == f1 || victim == f2;
    assert LruPolicy.Recency(st.lastUsed, victim) <= LruPolicy.Recency(st.lastUsed, st.frames[2]);
    assert victim == 3;
    assert IndexOf(st.frames, 3) == 2;
    var next := LruPolicy.Step(st, refs[0], idx, 3);
    assert |next.frames| == 3 && next.frames[0] == 4 && next.frames[1] == 1 && next.frames[2] == 2;
    LruFrom6(next, refs[1..], idx + 1);
  }

  /** The LRU example from reference 6 on: 6 faults so far, resident [4, 1, 2]. */
  lemma LruFrom6(st: LruPolicy.LruState, refs: seq<int>, idx: int)
    requires |st.frames| == 3 && st.frames[0] == 4 && st.frames[1] == 1 && st.frames[2] == 2
    requires LruPolicy.Recency(st.lastUsed, 4) == 3 && LruPolicy.Recency(st.lastUsed, 1) == 4 && LruPolicy.Recency(st.lastUsed, 2) == 5
    requires st.faults == 6
    requires |refs| == 6 && refs[0] == 5 && refs[1] == 1 && refs[2] == 2 && refs[3] == 3 && refs[4] == 4 && refs[5] == 5
    requires idx == 6
    ensures LruPolicy.Run(st, refs, idx, 3).faults == 10
  {
    assert st.frames[0] != 5;
    assert st.frames[1] != 5;
    assert st.frames[2] != 5;
    var victim := LruPolicy.LeastRecentlyUsed(st.frames, st.lastUsed);
    var f0, f1, f2 := st.frames[0], st.frames[1], st.frames[2];
    assert victim == f0 || victim == f1 || victim == f2;
    assert LruPolicy.Recency(st.lastUsed, victim) <= LruPolicy.Recency(st.lastUsed, st.frames[0]);
    assert victim == 4;
    assert IndexOf(st.frames, 4) == 0;
    var next := LruPolicy.Step(st, refs[0], idx, 3);
    assert |next.frames| == 3 && next.frames[0] == 5 && next.frames[1] == 1 && next.frames[2] == 2;
    LruFrom7(next, refs[1..], idx + 1);
  }

  /** The LRU example from reference 7 on: 7 faults so far, resident [5, 1, 2]. */
  lemma LruFrom7(st: LruPolicy.LruState, refs: seq<int>, idx: int)
    requires |st.frames| == 3 && st.frames[0] == 5 && st.frames[1] == 1 && st.frames[2] == 2
    requires LruPolicy.Recency(st.lastUsed, 5) == 6 && LruPolicy.Recency(st.lastUsed, 1) == 4 && LruPolicy.Recency(st.lastUsed, 2) == 5
    requires st.faults == 7
    requires |refs| == 5 && refs[0] == 1 && refs[1] == 2 && refs[2] == 3 && refs[3] == 4 && refs[4] == 5
    requires idx == 7
    ensures LruPolicy.Run(st, refs, idx, 3).faults == 10
  {
    assert st.frames[1] == 1;
    var next := LruPolicy.Step(st, refs[0], idx, 3);
    assert |next.frames| == 3 && next.frames[0] == 5 && next.frames[1] == 1 && next.frames[2] == 2;
    LruFrom8(next, refs[1..], idx + 1);
  }

  /** The LRU example from reference 8 on: 7 faults so far, resident [5, 1, 2]. */
  lemma LruFrom8(st: LruPolicy.LruState, refs: seq<int>, idx: int)
    requires |st.frames| == 3 && st.frames[0] == 5 && st.frames[1] == 1 && st.frames[2] == 2
    requires LruPolicy.Recency(st.lastUsed, 5) == 6 && LruPolicy.Recency(st.lastUsed, 1) == 7 && LruPolicy.Recency(st.lastUsed, 2) == 5
    requires st.faults == 7
    requires |refs| == 4 && refs[0] == 2 && refs[1] == 3 && refs[2] == 4 && refs[3] == 5
    requires idx == 8
    ensures LruPolicy.Run(st, refs, idx, 3).faults == 10
  {
    assert st.frames[2] == 2;
    var next := LruPolicy.Step(st, refs[0], idx, 3);
    assert |next.frames| == 3 && next.frames[0] == 5 && next.frames[1] == 1 && next.frames[2] == 2;
    LruFrom9(next, refs[1..], idx + 1);
  }

  /** The LRU example from reference 9 on: 7 faults so far, resident [5, 1, 2]. */
  lemma LruFrom9(st: LruPolicy.LruState, refs: seq<int>, idx: int)
    requires |st.frames| == 3 && st.frames[0] == 5 && st.frames[1] == 1 && st.frames[2] == 2
    requires LruPolicy.Recency(st.lastUsed, 5) == 6 && LruPolicy.Recency(st.lastUsed, 1) == 7 && LruPolicy.Recency(st.lastUsed, 2) == 8
    requires st.faults == 7
    requires |refs| == 3 && refs[0] == 3 && refs[1] == 4 && refs[2] == 5
    requires idx == 9
    ensures LruPolicy.Run(st, refs, idx, 3).faults == 10
  {
    assert st.frames[0] != 3;
    assert st.frames[1] != 3;
    assert st.frames[2] != 3;
    var victim := LruPolicy.LeastRecentlyUsed(st.frames, st.lastUsed);
    var f0, f1, f2 := st.frames[0], st.frames[1], st.frames[2];
    assert victim == f0 || victim == f1 || victim == f2;
    assert LruPolicy.Recency(st.lastUsed, victim) <= LruPolicy.Recency(st.lastUsed, st.frames[0]);
    assert victim == 5;
    assert IndexOf(st.frames, 5) == 0;
    var next := LruPolicy.Step(st, refs[0], idx, 3);
    assert |next.frames| == 3 && next.frames[0] == 3 && next.frames[1] == 1 && next.frames[2] == 2;
    LruFrom10(next, refs[1..], idx + 1);
  }

  /** The LRU example from reference 10 on: 8 faults so far, resident [3, 1, 2]. */
  lemma LruFrom10(st: LruPolicy.LruState, refs: seq<int>, idx: int)
    requires |st.frames| == 3 && st.frames[0] == 3 && st.frames[1] == 1 && st.frames[2] == 2
    requires LruPolicy.Recency(st.lastUsed, 3) == 9 && LruPolicy.Recency(st.lastUsed, 1) == 7 && LruPolicy.Recency(st.lastUsed, 2) == 8
    requires st.faults == 8
    requires |refs| == 2 && refs[0] == 4 && refs[1] == 5
    requires idx == 10
    ensures LruPolicy.Run(st, refs, idx, 3).faults == 10
  {
    assert st.frames[0] != 4;
    assert st.frames[1] != 4;
    assert st.frames[2] != 4;
    var victim := LruPolicy.LeastRecentlyUsed(st.frames, st.lastUsed);
    var f0, f1, f2 := st.frames[0], st.frames[1], st.frames[2];
    assert victim == f0 || victim == f1 || victim == f2;
    assert LruPolicy.Recency(st.lastUsed, victim) <= LruPolicy.Recency(st.lastUsed, st.frames[1]);
    assert victim == 1;
    assert IndexOf(st.frames, 1) == 1;
    var next := LruPolicy.Step(st, refs[0], idx, 3);
    assert |next.frames| == 3 && next.frames[0] == 3 && next.frames[1] == 4 && next.frames[2] == 2;
    LruFrom11(next, refs[1..], idx + 1);
  }

  /** The LRU example from reference 11 on: 9 faults so far, resident [3, 4, 2]. */
  lemma LruFrom11(st: LruPolicy.LruState, refs: seq<int>, idx: int)
    requires |st.frames| == 3 && st.frames[0] == 3 && st.frames[1] == 4 && st.frames[2] == 2
    requires LruPolicy.Recency(st.lastUsed, 3) == 9 && LruPolicy.Recency(st.lastUsed, 4) == 10 && LruPolicy.Recency(st.lastUsed, 2) == 8
    requires st.faults == 9
    requires |refs| == 1 && refs[0] == 5
    requires idx == 11
    ensures LruPolicy.Run(st, refs, idx, 3).faults == 10
  {
    assert st.frames[0] != 5;
    assert st.frames[1] != 5;
    assert st.frames[2] != 5;
    var victim := LruPolicy.LeastRecentlyUsed(st.frames, st.lastUsed);
    var f0, f1, f2 := st.frames[0], st.frames[1], st.frames[2];
    assert victim == f0 || victim == f1 || victim == f2;
    assert LruPolicy.Recency(st.lastUsed, victim) <= LruPolicy.Recency(st.lastUsed, st.frames[2]);
    assert victim == 2;
    assert IndexOf(st.frames, 2) == 2;
    var next := LruPolicy.Step(st, refs[0], idx, 3);
    assert |next.frames| == 3 && next.frames[0] == 3 && next.frames[1] == 4 && next.frames[2] == 5;
    LruFrom12(next, refs[1..], idx + 1);
  }

  /** The LRU example from reference 12 on: 10 faults so far, resident [3, 4, 5]. */
  lemma LruFrom12(st: LruPolicy.LruState, refs: seq<int>, idx: int)
    requires |st.frames| == 3 && st.frames[0] == 3 && st.frames[1] == 4 && st.frames[2] == 5
    requires LruPolicy.Recency(st.lastUsed, 3) == 9 && LruPolicy.Recency(st.lastUsed, 4) == 10 && LruPolicy.Recency(st.lastUsed, 5) == 11
    requires st.faults == 10
    requires |refs| == 0
    requires idx == 12
    ensures LruPolicy.Run(st, refs, idx, 3).faults == 10
  {
  }

  /** LRU on the classic reference string with three frames faults 10 times. */
  lemma LruExample(refs: seq<int>)
    requires |refs| == 12 && refs[0] == 1 && refs[1] == 2 && refs[2] == 3 && refs[3] == 4 && refs[4] == 1 && refs[5] == 2 && refs[6] == 5 && refs[7] == 1 && refs[8] == 2 && refs[9] == 3 && refs[10] == 4 && refs[11] == 5
    ensures LruPolicy.Faults(refs, 3) == 10
  {
    LruFrom0(LruPolicy.Start, refs, 0);
  }

  /** The Optimal victim at reference 3: page 3, in slot 2. */
  lemma OptimalVictim3(frames: seq<int>, future: seq<int>)
    requires |frames| == 3 && frames[0] == 1 && frames[1] == 2 && frames[2] == 3
    requires |future| == 8 && future[0] == 1 && future[1] == 2 && future[2] == 5 && future[3] == 1 && future[4] == 2 && future[5] == 3 && future[6] == 4 && future[7] == 5
    ensures IndexOf(frames, OptimalPolicy.FurthestPage(frames, OptimalPolicy.NextUses(frames, future))) == 2
  {
    OptimalPolicy.VictimIsFurthest(frames, future, 3);
    var p := OptimalPolicy.FurthestPage(frames, OptimalPolicy.NextUses(frames, future));
    var f0, f1, f2 := frames[0], frames[1], frames[2];
    assert p == f0 || p == f1 || p == f2;
    assert future[0] == 1;
    assert IndexOf(future, 1) == 0;
    assert future[1] == 2;
    assert IndexOf(future, 2) == 1;
    assert future[5] == 3;
    assert IndexOf(future, 3) == 5;
    assert p == 3;
    assert IndexOf(frames, 3) == 2;
  }

  /** The Optimal victim at reference 6: page 4, in slot 2. */
  lemma OptimalVictim6(frames: seq<int>, future: seq<int>)
    requires |frames| == 3 && frames[0] == 1 && frames[1] == 2 && frames[2] == 4
    requires |future| == 5 && future[0] == 1 && future[1] == 2 && future[2] == 3 && future[3] == 4 && future[4] == 5
    ensures IndexOf(frames, OptimalPolicy.FurthestPage(frames, OptimalPolicy.NextUses(frames, future))) == 2
  {
    OptimalPolicy.VictimIsFurthest(frames, future, 4);
    var p := OptimalPolicy.FurthestPage(frames, OptimalPolicy.NextUses(frames, future));
    var f0, f1, f2 := frames[0], frames[1], frames[2];
    assert p == f0 || p == f1 || p == f2;
    assert future[0] == 1;
    assert IndexOf(future, 1) == 0;
    assert future[1] == 2;
    assert IndexOf(future, 2) == 1;
    assert future[3] == 4;
    assert IndexOf(future, 4) == 3;
    assert p == 4;
    assert IndexOf(frames, 4) == 2;
  }

  /** The Optimal victim at reference 9: page 1, in slot 0. */
  lemma OptimalVictim9(frames: seq<int>, future: seq<int>)
    requires |frames| == 3 && frames[0] == 1 && frames[1] == 2 && frames[2] == 5
    requires |future| == 2 && future[0] == 4 && future[1] == 5
    ensures IndexOf(frames, OptimalPolicy.FurthestPage(frames, OptimalPolicy.NextUses(frames, future))) == 0
  {
    OptimalPolicy.VictimIsFurthest(frames, future, 1);
    var p := OptimalPolicy.FurthestPage(frames, OptimalPolicy.NextUses(frames, future));
    var f0, f1, f2 := frames[0], frames[1], frames[2];
    assert p == f0 || p == f1 || p == f2;
    assert 1 !in future;
    assert 2 !in future;
    assert future[1] == 5;
    assert IndexOf(future, 5) == 1;
    assert p == 1;
    assert IndexOf(frames, 1) == 0;
  }

  /** The Optimal victim at reference 10: page 3, in slot 0. */
  lemma OptimalVictim10(frames: seq<int>, future: seq<int>)
    requires |frames| == 3 && frames[0] == 3 && frames[1] == 2 && frames[2] == 5
    requires |future| == 1 && future[0] == 5
    ensures IndexOf(frames, OptimalPolicy.FurthestPage(frames, OptimalPolicy.NextUses(frames, future))) == 0
  {
    OptimalPolicy.VictimIsFurthest(frames, future, 3);
    var p := OptimalPolicy.FurthestPage(frames, OptimalPolicy.NextUses(frames, future));
    var f0, f1, f2 := frames[0], frames[1], frames[2];
    assert p == f0 || p == f1 || p == f2;
    assert 3 !in future;
    assert 2 !in future;
    assert future[0] == 5;
    assert IndexOf(future, 5) == 0;
    assert p == 3;
    assert IndexOf(frames, 3) == 0;
  }

  /** The Optimal example from reference 0 on: 0 faults so far, resident []. */
  lemma OptimalFrom0(st: OptimalPolicy.OptState, refs: seq<int>)
    requires |st.frames| == 0
    requires st.faults == 0
    requires |refs| == 12 && refs[0] == 1 && refs[1] == 2 && refs[2] == 3 && refs[3] == 4 && refs[4] == 1 && refs[5] == 2 && refs[6] == 5 && refs[7] == 1 && refs[8] == 2 && refs[9] == 3 && refs[10] == 4 && refs[11] == 5
    ensures OptimalPolicy.Run(st, refs, 3).faults == 7
  {
    var next := OptimalPolicy.Step(st, refs[0], refs[1..], 3);
    assert |next.frames| == 1 && next.frames[0] == 1;
    OptimalFrom1(next, refs[1..]);
  }

  /** The Optimal example from reference 1 on: 1 faults so far, resident [1]. */
  lemma OptimalFrom1(st: OptimalPolicy.OptState, refs: seq<int>)
    requires |st.frames| == 1 && st.frames[0] == 1
    requires st.faults == 1
    requires |refs| == 11 && refs[0] == 2 && refs[1] == 3 && refs[2] == 4 && refs[3] == 1 && refs[4] == 2 && refs[5] == 5 && refs[6] == 1 && refs[7] == 2 && refs[8] == 3 && refs[9] == 4 && refs[10] == 5
    ensures OptimalPolicy.Run(st, refs, 3).faults == 7
  {
    assert st.frames[0] != 2;
    var next := OptimalPolicy.Step(st, refs[0], refs[1..], 3);
    assert |next.frames| == 2 && next.frames[0] == 1 && next.frames[1] == 2;
    OptimalFrom2(next, refs[1..]);
  }

  /** The Optimal example from reference 2 on: 2 faults so far, resident [1, 2]. */
  lemma OptimalFrom2(st: OptimalPolicy.OptState, refs: seq<int>)
    requires |st.frames| == 2 && st.frames[0] == 1 && st.frames[1] == 2
    requires st.faults == 2
    requires |refs| == 10 && refs[0] == 3 && refs[1] == 4 && refs[2] == 1 && refs[3] == 2 && refs[4] == 5 && refs[5] == 1 && refs[6] == 2 && refs[7] == 3 && refs[8] == 4 && refs[9] == 5
    ensures OptimalPolicy.Run(st, refs, 3).faults == 7
  {
    assert st.frames[0] != 3;
    assert st.frames[1] != 3;
    var next := OptimalPolicy.Step(st, refs[0], refs[1..], 3);
    assert |next.frames| == 3 && next.frames[0] == 1 && next.frames[1] == 2 && next.frames[2] == 3;
    OptimalFrom3(next, refs[1..]);
  }

  /** The Optimal example from reference 3 on: 3 faults so far, resident [1, 2, 3]. */
  lemma OptimalFrom3(st: OptimalPolicy.OptState, refs: seq<int>)
    requires |st.frames| == 3 && st.frames[0] == 1 && st.frames[1] == 2 && st.frames[2] == 3
    requires st.faults == 3
    requires |refs| == 9 && refs[0] == 4 && refs[1] == 1 && refs[2] == 2 && refs[3] == 5 && refs[4] == 1 && refs[5] == 2 && refs[6] == 3 && refs[7] == 4 && refs[8] == 5
    ensures OptimalPolicy.Run(st, refs, 3).faults == 7
  {
    assert st.frames[0] != 4;
    assert st.frames[1] != 4;
    assert st.frames[2] != 4;
    OptimalVictim3(st.frames, refs[1..]);
    var next := OptimalPolicy.Step(st, refs[0], refs[1..], 3);
    assert |next.frames| == 3 && next.frames[0] == 1 && next.frames[1] == 2 && next.frames[2] == 4;
    OptimalFrom4(next, refs[1..]);
  }

  /** The Optimal example from reference 4 on: 4 faults so far, resident [1, 2, 4]. */
  lemma OptimalFrom4(st: OptimalPolicy.OptState, refs: seq<int>)
    requires |st.frames| == 3 && st.frames[0] == 1 && st.frames[1] == 2 && st.frames[2] == 4
    requires st.faults == 4
    requires |refs| == 8 && refs[0] == 1 && refs[1] == 2 && refs[2] == 5 && refs[3] == 1 && refs[4] == 2 && refs[5] == 3 && refs[6] == 4 && refs[7] == 5
    ensures OptimalPolicy.Run(st, refs, 3).faults == 7
  {
    assert st.frames[0] == 1;
    var next := OptimalPolicy.Step(st, refs[0], refs[1..], 3);
    assert |next.frames| == 3 && next.frames[0] == 1 && next.frames[1] == 2 && next.frames[2] == 4;
    OptimalFrom5(next, refs[1..]);
  }

  /** The Optimal example from reference 5 on: 4 faults so far, resident [1, 2, 4]. */
  lemma OptimalFrom5(st: OptimalPolicy.OptState, refs: seq<int>)
    requires |st.frames| == 3 && st.frames[0] == 1 && st.frames[1] == 2 && st.frames[2] == 4
    requires st.faults == 4
    requires |refs| == 7 && refs[0] == 2 && refs[1] == 5 && refs[2] == 1 && refs[3] == 2 && refs[4] == 3 && refs[5] == 4 && refs[6] == 5
    ensures OptimalPolicy.Run(st, refs, 3).faults == 7
  {
    assert st.frames[1] == 2;
    var next := OptimalPolicy.Step(st, refs[0], refs[1..], 3);
    assert |next.frames| == 3 && next.frames[0] == 1 && next.frames[1] == 2 && next.frames[2] == 4;
    OptimalFrom6(next, refs[1..]);
  }

  /** The Optimal example from reference 6 on: 4 faults so far, resident [1, 2, 4]. */
  lemma OptimalFrom6(st: OptimalPolicy.OptState, refs: seq<int>)
    requires |st.frames| == 3 && st.frames[0] == 1 && st.frames[1] == 2 && st.frames[2] == 4
    requires st.faults == 4
    requires |refs| == 6 && refs[0] == 5 && refs[1] == 1 && refs[2] == 2 && refs[3] == 3 && refs[4] == 4 && refs[5] == 5
    ensures OptimalPolicy.Run(st, refs, 3).faults == 7
  {
    assert st.frames[0] != 5;
    assert st.frames[1] != 5;
    assert st.frames[2] != 5;
    OptimalVictim6(st.frames, refs[1..]);
    var next := OptimalPolicy.Step(st, refs[0], refs[1..], 3);
    assert |next.frames| == 3 && next.frames[0] == 1 && next.frames[1] == 2 && next.frames[2] == 5;
    OptimalFrom7(next, refs[1..]);
  }

  /** The Optimal example from reference 7 on: 5 faults so far, resident [1, 2, 5]. */
  lemma OptimalFrom7(st: OptimalPolicy.OptState, refs: seq<int>)
    requires |st.frames| == 3 && st.frames[0] == 1 && st.frames[1] == 2 && st.frames[2] == 5
    requires st.faults == 5
    requires |refs| == 5 && refs[0] == 1 && refs[1] == 2 && refs[2] == 3 && refs[3] == 4 && refs[4] == 5
    ensures OptimalPolicy.Run(st, refs, 3).faults == 7
  {
    assert st.frames[0] == 1;
    var next := OptimalPolicy.Step(st, refs[0], refs[1..], 3);
    assert |next.frames| == 3 && next.frames[0] == 1 && next.frames[1] == 2 && next.frames[2] == 5;
    OptimalFrom8(next, refs[1..]);
  }

  /** The Optimal example from reference 8 on: 5 faults so far, resident [1, 2, 5]. */
  lemma OptimalFrom8(st: OptimalPolicy.OptState, refs: seq<int>)
    requires |st.frames| == 3 && st.frames[0] == 1 && st.frames[1] == 2 && st.frames[2] == 5
    requires st.faults == 5
    requires |refs| == 4 && refs[0] == 2 && refs[1] == 3 && refs[2] == 4 && refs[3] == 5
    ensures OptimalPolicy.Run(st, refs, 3).faults == 7
  {
    assert st.frames[1] == 2;
    var next := OptimalPolicy.Step(st, refs[0], refs[1..], 3);
    assert |next.frames| == 3 && next.frames[0] == 1 && next.frames[1] == 2 && next.frames[2] == 5;
    OptimalFrom9(next, refs[1..]);
  }

  /** The Optimal example from reference 9 on: 5 faults so far, resident [1, 2, 5]. */
  lemma OptimalFrom9(st: OptimalPolicy.OptState, refs: seq<int>)
    requires |st.frames| == 3 && st.frames[0] == 1 && st.frames[1] == 2 && st.frames[2] == 5
    requires st.faults == 5
    requires |refs| == 3 && refs[0] == 3 && refs[1] == 4 && refs[2] == 5
    ensures OptimalPolicy.Run(st, refs, 3).faults == 7
  {
    assert st.frames[0] != 3;
    assert st.frames[1] != 3;
    assert st.frames[2] != 3;
    OptimalVictim9(st.frames, refs[1..]);
    var next := OptimalPolicy.Step(st, refs[0], refs[1..], 3);
    assert |next.frames| == 3 && next.frames[0] == 3 && next.frames[1] == 2 && next.frames[2] == 5;
    OptimalFrom10(next, refs[1..]);
  }

  /** The Optimal example from reference 10 on: 6 faults so far, resident [3, 2, 5]. */
  lemma OptimalFrom10(st: OptimalPolicy.OptState, refs: seq<int>)
    requires |st.frames| == 3 && st.frames[0] == 3 && st.frames[1] == 2 && st.frames[2] == 5
    requires st.faults == 6
    requires |refs| == 2 && refs[0] == 4 && refs[1] == 5
    ensures OptimalPolicy.Run(st, refs, 3).faults == 7
  {
    assert st.frames[0] != 4;
    assert st.frames[1] != 4;
    assert st.frames[2] != 4;
    OptimalVictim10(st.frames, refs[1..]);
    var next := OptimalPolicy.Step(st, refs[0], refs[1..], 3);
    assert |next.frames| == 3 && next.frames[0] == 4 && next.frames[1] == 2 && next.frames[2] == 5;
    OptimalFrom11(next, refs[1..]);
  }

  /** The Optimal example from reference 11 on: 7 faults so far, resident [4, 2, 5]. */
  lemma OptimalFrom11(st: OptimalPolicy.OptState, refs: seq<int>)
    requires |st.frames| == 3 && st.frames[0] == 4 && st.frames[1] == 2 && st.frames[2] == 5
    requires st.faults == 7
    requires |refs| == 1 && refs[0] == 5
    ensures OptimalPolicy.Run(st, refs, 3).faults == 7
  {
    assert st.frames[2] == 5;
    var next := OptimalPolicy.Step(st, refs[0], refs[1..], 3);
    assert |next.frames| == 3 && next.frames[0] == 4 && next.frames[1] == 2 && next.frames[2] == 5;
    OptimalFrom12(next, refs[1..]);
  }

  /** The Optimal example from reference 12 on: 7 faults so far, resident [4, 2, 5]. */
  lemma OptimalFrom12(st: OptimalPolicy.OptState, refs: seq<int>)
    requires |st.frames| == 3 && st.frames[0] == 4 && st.frames[1] == 2 && st.frames[2] == 5
    requires st.faults == 7
    requires |refs| == 0
    ensures OptimalPolicy.Run(st, refs, 3).faults == 7
  {
  }

  /** Optimal replacement on the classic reference string with three frames faults 7 times. */
  lemma OptimalExample(refs: seq<int>)
    requires |refs| == 12 && refs[0] == 1 && refs[1] == 2 && refs[2] == 3 && refs[3] == 4 && refs[4] == 1 && refs[5] == 2 && refs[6] == 5 && refs[7] == 1 && refs[8] == 2 && refs[9] == 3 && refs[10] == 4 && refs[11] == 5
    ensures OptimalPolicy.Faults(refs, 3) == 7
  {
    OptimalFrom0(OptimalPolicy.Start, refs);
  }

  /** FCFS travel depends only on the requests' values, position by position. */
  lemma FcfsOfElems(head: int, s: seq<int>, t: seq<int>)
    requires |s| == |t| && forall i :: 0 <= i < |s| ==> s[i] == t[i]
    ensures DiskScheduler.FcfsTotal(head, s) == DiskScheduler.FcfsTotal(head, t)
  {
    assert s == t;
  }

  /** Three requests from track 0, service 0: from track 0 the nearest pending request is 1, at position 1. */
  lemma SmallNearest0(head: int, remaining: seq<int>)
    requires head == 0 && |remaining| == 3 && remaining[0] == 2 && remaining[1] == 1 && remaining[2] == 4
    ensures DiskScheduler.ClosestIndex(remaining, head) == 1
    ensures var rest := DiskScheduler.RemoveFirst(remaining, remaining[1]); |rest| == 2 && rest[0] == 2 && rest[1] == 4
  {
    var i := DiskScheduler.ClosestIndex(remaining, head);
    assert Abs(remaining[i] - head) <= Abs(remaining[1] - head);
    assert i != 0;
    assert i != 2;
    assert remaining[0] != 1;
    assert IndexOf(remaining, remaining[1]) == 1;
  }

  /** Three requests from track 0: the SSTF order from service 0 on. */
  lemma SmallFrom0(head: int, remaining: seq<int>)
    requires head == 0 && |remaining| == 3 && remaining[0] == 2 && remaining[1] == 1 && remaining[2] == 4
    ensures var order := DiskScheduler.SstfOrder(head, remaining); |order| == 3 && order[0] == 1 && order[1] == 2 && order[2] == 4
  {
    SmallNearest0(head, remaining);
    SmallFrom1(remaining[1], DiskScheduler.RemoveFirst(remaining, remaining[1]));
  }

  /** Three requests from track 0, service 1: from track 1 the nearest pending request is 2, at position 0. */
  lemma SmallNearest1(head: int, remaining: seq<int>)
    requires head == 1 && |remaining| == 2 && remaining[0] == 2 && remaining[1] == 4
    ensures DiskScheduler.ClosestIndex(remaining, head) == 0
    ensures var rest := DiskScheduler.RemoveFirst(remaining, remaining[0]); |rest| == 1 && rest[0] == 4
  {
    var i := DiskScheduler.ClosestIndex(remaining, head);
    assert Abs(remaining[i] - head) <= Abs(remaining[0] - head);
    assert i != 1;
    assert IndexOf(remaining, remaining[0]) == 0;
  }

  /** Three requests from track 0: the SSTF order from service 1 on. */
  lemma SmallFrom1(head: int, remaining: seq<int>)
    requires head == 1 && |remaining| == 2 && remaining[0] == 2 && remaining[1] == 4
    ensures var order := DiskScheduler.SstfOrder(head, remaining); |order| == 2 && order[0] == 2 && order[1] == 4
  {
    SmallNearest1(head, remaining);
    SmallFrom2(remaining[0], DiskScheduler.RemoveFirst(remaining, remaining[0]));
  }

  /** Three requests from track 0, service 2: from track 2 the nearest pending request is 4, at position 0. */
  lemma SmallNearest2(head: int, remaining: seq<int>)
    requires head == 2 && |remaining| == 1 && remaining[0] == 4
    ensures DiskScheduler.ClosestIndex(remaining, head) == 0
    ensures var rest := DiskScheduler.RemoveFirst(remaining, remaining[0]); |rest| == 0
  {
    assert IndexOf(remaining, remaining[0]) == 0;
  }

  /** Three requests from track 0: the SSTF order from service 2 on. */
  lemma SmallFrom2(head: int, remaining: seq<int>)
    requires head == 2 && |remaining| == 1 && remaining[0] == 4
    ensures var order := DiskScheduler.SstfOrder(head, remaining); |order| == 1 && order[0] == 4
  {
    SmallNearest2(head, remaining);
  }

  /** Three requests from track 0: head travel along the requests in arrival order and in SSTF order. */
  lemma SmallLegs(head: int)
    requires head == 0
    ensures DiskScheduler.FcfsTotal(head, [2, 1, 4]) == 6
    ensures DiskScheduler.FcfsTotal(head, [1, 2, 4]) == 4
  {
  }

  /** Three requests from track 0: SSTF travels 4 tracks. */
  lemma SmallSstf(head: int, requests: seq<int>)
    requires head == 0 && |requests| == 3 && requests[0] == 2 && requests[1] == 1 && requests[2] == 4
    ensures DiskScheduler.SstfTotal(head, requests) == 4
  {
    SmallFrom0(head, requests);
    FcfsOfElems(head, DiskScheduler.SstfOrder(head, requests), [1, 2, 4]);
    SmallLegs(head);
  }

  /** Three requests from track 0: FCFS travels 6 tracks and SSTF 4. */
  lemma SmallDiskExample(head: int, requests: seq<int>)
    requires head == 0 && |requests| == 3 && requests[0] == 2 && requests[1] == 1 && requests[2] == 4
    ensures DiskScheduler.FcfsTotal(head, requests) == 6
    ensures DiskScheduler.SstfTotal(head, requests) == 4
  {
    SmallSstf(head, requests);
    FcfsOfElems(head, requests, [2, 1, 4]);
    SmallLegs(head);
  }

  /** Eight requests from track 53, service 0: from track 53 the nearest pending request is 65, at position 6. */
  lemma TextbookNearest0(head: int, remaining: seq<int>)
    requires head == 53 && |remaining| == 8 && remaining[0] == 98 && remaining[1] == 183 && remaining[2] == 37 && remaining[3] == 122 && remaining[4] == 14 && remaining[5] == 124 && remaining[6] == 65 && remaining[7] == 67
    ensures DiskScheduler.ClosestIndex(remaining, head) == 6
    ensures var rest := DiskScheduler.RemoveFirst(remaining, remaining[6]); |rest| == 7 && rest[0] == 98 && rest[1] == 183 && rest[2] == 37 && rest[3] == 122 && rest[4] == 14 && rest[5] == 124 && rest[6] == 67
  {
    var i := DiskScheduler.ClosestIndex(remaining, head);
    assert Abs(remaining[i] - head) <= Abs(remaining[6] - head);
    assert i != 0;
    assert i != 1;
    assert i != 2;
    assert i != 3;
    assert i != 4;
    assert i != 5;
    assert i != 7;
    assert remaining[0] != 65;
    assert remaining[1] != 65;
    assert remaining[2] != 65;
    assert remaining[3] != 65;
    assert remaining[4] != 65;
    assert remaining[5] != 65;
    assert IndexOf(remaining, remaining[6]) == 6;
  }

  /** Eight requests from track 53: the SSTF order from service 0 on. */
  lemma TextbookFrom0(head: int, remaining: seq<int>)
    requires head == 53 && |remaining| == 8 && remaining[0] == 98 && remaining[1] == 183 && remaining[2] == 37 && remaining[3] == 122 && remaining[4] == 14 && remaining[5] == 124 && remaining[6] == 65 && remaining[7] == 67
    ensures var order := DiskScheduler.SstfOrder(head, remaining); |order| == 8 && order[0] == 65 && order[1] == 67 && order[2] == 37 && order[3] == 14 && order[4] == 98 && order[5] == 122 && order[6] == 124 && order[7] == 183
  {
    TextbookNearest0(head, remaining);
    TextbookFrom1(remaining[6], DiskScheduler.RemoveFirst(remaining, remaining[6]));
  }

  /** Eight requests from track 53, service 1: from track 65 the nearest pending request is 67, at position 6. */
  lemma TextbookNearest1(head: int, remaining: seq<int>)
    requires head == 65 && |remaining| == 7 && remaining[0] == 98 && remaining[1] == 183 && remaining[2] == 37 && remaining[3] == 122 && remaining[4] == 14 && remaining[5] == 124 && remaining[6] == 67
    ensures DiskScheduler.ClosestIndex(remaining, head) == 6
    ensures var rest := DiskScheduler.RemoveFirst(remaining, remaining[6]); |rest| == 6 && rest[0] == 98 && rest[1] == 183 && rest[2] == 37 && rest[3] == 122 && rest[4] == 14 && rest[5] == 124
  {
    var i := DiskScheduler.ClosestIndex(remaining, head);
    assert Abs(remaining[i] - head) <= Abs(remaining[6] - head);
    assert i != 0;
    assert i != 1;
    assert i != 2;
    assert i != 3;
    assert i != 4;
    assert i != 5;
    assert remaining[0] != 67;
    assert remaining[1] != 67;
    assert remaining[2] != 67;
    assert remaining[3] != 67;
    assert remaining[4] != 67;
    assert remaining[5] != 67;
    assert IndexOf(remaining, remaining[6]) == 6;
  }

  /** Eight requests from track 53: the SSTF order from service 1 on. */
  lemma TextbookFrom1(head: int, remaining: seq<int>)
    requires head == 65 && |remaining| == 7 && remaining[0] == 98 && remaining[1] == 183 && remaining[2] == 37 && remaining[3] == 122 && remaining[4] == 14 && remaining[5] == 124 && remaining[6] == 67
    ensures var order := DiskScheduler.SstfOrder(head, remaining); |order| == 7 && order[0] == 67 && order[1] == 37 && order[2] == 14 && order[3] == 98 && order[4] == 122 && order[5] == 124 && order[6] == 183
  {
    TextbookNearest1(head, remaining);
    TextbookFrom2(remaining[6], DiskScheduler.RemoveFirst(remaining, remaining[6]));
  }

  /** Eight requests from track 53, service 2: from track 67 the nearest pending request is 37, at position 2. */
  lemma TextbookNearest2(head: int, remaining: seq<int>)
    requires head == 67 && |remaining| == 6 && remaining[0] == 98 && remaining[1] == 183 && remaining[2] == 37 && remaining[3] == 122 && remaining[4] == 14 && remaining[5] == 124
    ensures DiskScheduler.ClosestIndex(remaining, head) == 2
    ensures var rest := DiskScheduler.RemoveFirst(remaining, remaining[2]); |rest| == 5 && rest[0] == 98 && rest[1] == 183 && rest[2] == 122 && rest[3] == 14 && rest[4] == 124
  {
    var i := DiskScheduler.ClosestIndex(remaining, head);
    assert Abs(remaining[i] - head) <= Abs(remaining[2] - head);
    assert i != 0;
    assert i != 1;
    assert i != 3;
    assert i != 4;
    assert i != 5;
    assert remaining[0] != 37;
    assert remaining[1] != 37;
    assert IndexOf(remaining, remaining[2]) == 2;
  }

  /** Eight requests from track 53: the SSTF order from service 2 on. */
  lemma TextbookFrom2(head: int, remaining: seq<int>)
    requires head == 67 && |remaining| == 6 && remaining[0] == 98 && remaining[1] == 183 && remaining[2] == 37 && remaining[3] == 122 && remaining[4] == 14 && remaining[5] == 124
    ensures var order := DiskScheduler.SstfOrder(head, remaining); |order| == 6 && order[0] == 37 && order[1] == 14 && order[2] == 98 && order[3] == 122 && order[4] == 124 && order[5] == 183
  {
    TextbookNearest2(head, remaining);
    TextbookFrom3(remaining[2], DiskScheduler.RemoveFirst(remaining, remaining[2]));
  }

  /** Eight requests from track 53, service 3: from track 37 the nearest pending request is 14, at position 3. */
  lemma TextbookNearest3(head: int, remaining: seq<int>)
    requires head == 37 && |remaining| == 5 && remaining[0] == 98 && remaining[1] == 183 && remaining[2] == 122 && remaining[3] == 14 && remaining[4] == 124
    ensures DiskScheduler.ClosestIndex(remaining, head) == 3
    ensures var rest := DiskScheduler.RemoveFirst(remaining, remaining[3]); |rest| == 4 && rest[0] == 98 && rest[1] == 183 && rest[2] == 122 && rest[3] == 124
  {
    var i := DiskScheduler.ClosestIndex(remaining, head);
    assert Abs(remaining[i] - head) <= Abs(remaining[3] - head);
    assert i != 0;
    assert i != 1;
    assert i != 2;
    assert i != 4;
    assert remaining[0] != 14;
    assert remaining[1] != 14;
    assert remaining[2] != 14;
    assert IndexOf(remaining, remaining[3]) == 3;
  }

  /** Eight requests from track 53: the SSTF order from service 3 on. */
  lemma TextbookFrom3(head: int, remaining: seq<int>)
    requires head == 37 && |remaining| == 5 && remaining[0] == 98 && remaining[1] == 183 && remaining[2] == 122 && remaining[3] == 14 && remaining[4] == 124
    ensures var order := DiskScheduler.SstfOrder(head, remaining); |order| == 5 && order[0] == 14 && order[1] == 98 && order[2] == 122 && order[3] == 124 && order[4] == 183
  {
    TextbookNearest3(head, remaining);
    TextbookFrom4(remaining[3], DiskScheduler.RemoveFirst(remaining, remaining[3]));
  }

  /** Eight requests from track 53, service 4: from track 14 the nearest pending request is 98, at position 0. */
  lemma TextbookNearest4(head: int, remaining: seq<int>)
    requires head == 14 && |remaining| == 4 && remaining[0] == 98 && remaining[1] == 183 && remaining[2] == 122 && remaining[3] == 124
    ensures DiskScheduler.ClosestIndex(remaining, head) == 0
    ensures var rest := DiskScheduler.RemoveFirst(remaining, remaining[0]); |rest| == 3 && rest[0] == 183 && rest[1] == 122 && rest[2] == 124
  {
    var i := DiskScheduler.ClosestIndex(remaining, head);
    assert Abs(remaining[i] - head) <= Abs(remaining[0] - head);
    assert i != 1;
    assert i != 2;
    assert i != 3;
    assert IndexOf(remaining, remaining[0]) == 0;
  }

  /** Eight requests from track 53: the SSTF order from service 4 on. */
  lemma TextbookFrom4(head: int, remaining: seq<int>)
    requires head == 14 && |remaining| == 4 && remaining[0] == 98 && remaining[1] == 183 && remaining[2] == 122 && remaining[3] == 124
    ensures var order := DiskScheduler.SstfOrder(head, remaining); |order| == 4 && order[0] == 98 && order[1] == 122 && order[2] == 124 && order[3] == 183
  {
    TextbookNearest4(head, remaining);
    TextbookFrom5(remaining[0], DiskScheduler.RemoveFirst(remaining, remaining[0]));
  }

  /** Eight requests from track 53, service 5: from track 98 the nearest pending request is 122, at position 1. */
  lemma TextbookNearest5(head: int, remaining: seq<int>)
    requires head == 98 && |remaining| == 3 && remaining[0] == 183 && remaining[1] == 122 && remaining[2] == 124
    ensures DiskScheduler.ClosestIndex(remaining, head) == 1
    ensures var rest := DiskScheduler.RemoveFirst(remaining, remaining[1]); |rest| == 2 && rest[0] == 183 && rest[1] == 124
  {
    var i := DiskScheduler.ClosestIndex(remaining, head);
    assert Abs(remaining[i] - head) <= Abs(remaining[1] - head);
    assert i != 0;
    assert i != 2;
    assert remaining[0] != 122;
    assert IndexOf(remaining, remaining[1]) == 1;
  }

  /** Eight requests from track 53: the SSTF order from service 5 on. */
  lemma TextbookFrom5(head: int, remaining: seq<int>)
    requires head == 98 && |remaining| == 3 && remaining[0] == 183 && remaining[1] == 122 && remaining[2] == 124
    ensures var order := DiskScheduler.SstfOrder(head, remaining); |order| == 3 && order[0] == 122 && order[1] == 124 && order[2] == 183
  {
    TextbookNearest5(head, remaining);
    TextbookFrom6(remaining[1], DiskScheduler.RemoveFirst(remaining, remaining[1]));
  }

  /** Eight requests from track 53, service 6: from track 122 the nearest pending request is 124, at position 1. */
  lemma TextbookNearest6(head: int, remaining: seq<int>)
    requires head == 122 && |remaining| == 2 && remaining[0] == 183 && remaining[1] == 124
    ensures DiskScheduler.ClosestIndex(remaining, head) == 1
    ensures var rest := DiskScheduler.RemoveFirst(remaining, remaining[1]); |rest| == 1 && rest[0] == 183
  {
    var i := DiskScheduler.ClosestIndex(remaining, head);
    assert Abs(remaining[i] - head) <= Abs(remaining[1] - head);
    assert i != 0;
    assert remaining[0] != 124;
    assert IndexOf(remaining, remaining[1]) == 1;
  }

  /** Eight requests from track 53: the SSTF order from service 6 on. */
  lemma TextbookFrom6(head: int, remaining: seq<int>)
    requires head == 122 && |remaining| == 2 && remaining[0] == 183 && remaining[1] == 124
    ensures var order := DiskScheduler.SstfOrder(head, remaining); |order| == 2 && order[0] == 124 && order[1] == 183
  {
    TextbookNearest6(head, remaining);
    TextbookFrom7(remaining[1], DiskScheduler.RemoveFirst(remaining, remaining[1]));
  }

  /** Eight requests from track 53, service 7: from track 124 the nearest pending request is 183, at position 0. */
  lemma TextbookNearest7(head: int, remaining: seq<int>)
    requires head == 124 && |remaining| == 1 && remaining[0] == 183
    ensures DiskScheduler.ClosestIndex(remaining, head) == 0
    ensures var rest := DiskScheduler.RemoveFirst(remaining, remaining[0]); |rest| == 0
  {
    assert IndexOf(remaining, remaining[0]) == 0;
  }

  /** Eight requests from track 53: the SSTF order from service 7 on. */
  lemma TextbookFrom7(head: int, remaining: seq<int>)
    requires head == 124 && |remaining| == 1 && remaining[0] == 183
    ensures var order := DiskScheduler.SstfOrder(head, remaining); |order| == 1 && order[0] == 183
  {
    TextbookNearest7(head, remaining);
  }

  /** Eight requests from track 53: head travel along the requests in arrival order. */
  lemma TextbookArrivalLegs(head: int)
    requires head == 53
    ensures DiskScheduler.FcfsTotal(head, [98, 183, 37, 122, 14, 124, 65, 67]) == 640
  {
  }

  /** Eight requests from track 53: head travel along the SSTF service order. */
  lemma TextbookSstfLegs(head: int)
    requires head == 53
    ensures DiskScheduler.FcfsTotal(head, [65, 67, 37, 14, 98, 122, 124, 183]) == 236
  {
  }

  /** Eight requests from track 53: SSTF travels 236 tracks. */
  lemma TextbookSstf(head: int, requests: seq<int>)
    requires head == 53 && |requests| == 8 && requests[0] == 98 && requests[1] == 183 && requests[2] == 37 && requests[3] == 122 && requests[4] == 14 && requests[5] == 124 && requests[6] == 65 && requests[7] == 67
    ensures DiskScheduler.SstfTotal(head, requests) == 236
  {
    TextbookFrom0(head, requests);
    FcfsOfElems(head, DiskScheduler.SstfOrder(head, requests), [65, 67, 37, 14, 98, 122, 124, 183]);
    TextbookSstfLegs(head);
  }

  /** Eight requests from track 53: FCFS travels 640 tracks and SSTF 236. */
  lemma TextbookDiskExample(head: int, requests: seq<int>)
    requires head == 53 && |requests| == 8 && requests[0] == 98 && requests[1] == 183 && requests[2] == 37 && requests[3] == 122 && requests[4] == 14 && requests[5] == 124 && requests[6] == 65 && requests[7] == 67
    ensures DiskScheduler.FcfsTotal(head, requests) == 640
    ensures DiskScheduler.SstfTotal(head, requests) == 236
  {
    TextbookSstf(head, requests);
    FcfsOfElems(head, requests, [98, 183, 37, 122, 14, 124, 65, 67]);
    TextbookArrivalLegs(head);
  }

  /** Three requests from track 10, service 0: from track 10 the nearest pending request is 8, at position 1. */
  lemma DetourNearest0(head: int, remaining: seq<int>)
    requires head == 10 && |remaining| == 3 && remaining[0] == 13 && remaining[1] == 8 && remaining[2] == 0
    ensures DiskScheduler.ClosestIndex(remaining, head) == 1
    ensures var rest := DiskScheduler.RemoveFirst(remaining, remaining[1]); |rest| == 2 && rest[0] == 13 && rest[1] == 0
  {
    var i := DiskScheduler.ClosestIndex(remaining, head);
    assert Abs(remaining[i] - head) <= Abs(remaining[1] - head);
    assert i != 0;
    assert i != 2;
    assert remaining[0] != 8;
    assert IndexOf(remaining, remaining[1]) == 1;
  }

  /** Three requests from track 10: the SSTF order from service 0 on. */
  lemma DetourFrom0(head: int, remaining: seq<int>)
    requires head == 10 && |remaining| == 3 && remaining[0] == 13 && remaining[1] == 8 && remaining[2] == 0
    ensures var order := DiskScheduler.SstfOrder(head, remaining); |order| == 3 && order[0] == 8 && order[1] == 13 && order[2] == 0
  {
    DetourNearest0(head, remaining);
    DetourFrom1(remaining[1], DiskScheduler.RemoveFirst(remaining, remaining[1]));
  }

  /** Three requests from track 10, service 1: from track 8 the nearest pending request is 13, at position 0. */
  lemma DetourNearest1(head: int, remaining: seq<int>)
    requires head == 8 && |remaining| == 2 && remaining[0] == 13 && remaining[1] == 0
    ensures DiskScheduler.ClosestIndex(remaining, head) == 0
    ensures var rest := DiskScheduler.RemoveFirst(remaining, remaining[0]); |rest| == 1 && rest[0] == 0
  {
    var i := DiskScheduler.ClosestIndex(remaining, head);
    assert Abs(remaining[i] - head) <= Abs(remaining[0] - head);
    assert i != 1;
    assert IndexOf(remaining, remaining[0]) == 0;
  }

  /** Three requests from track 10: the SSTF order from service 1 on. */
  lemma DetourFrom1(head: int, remaining: seq<int>)
    requires head == 8 && |remaining| == 2 && remaining[0] == 13 && remaining[1] == 0
    ensures var order := DiskScheduler.SstfOrder(head, remaining); |order| == 2 && order[0] == 13 && order[1] == 0
  {
    DetourNearest1(head, remaining);
    DetourFrom2(remaining[0], DiskScheduler.RemoveFirst(remaining, remaining[0]));
  }

  /** Three requests from track 10, service 2: from track 13 the nearest pending request is 0, at position 0. */
  lemma DetourNearest2(head: int, remaining: seq<int>)
    requires head == 13 && |remaining| == 1 && remaining[0] == 0
    ensures DiskScheduler.ClosestIndex(remaining, head) == 0
    ensures var rest := DiskScheduler.RemoveFirst(remaining, remaining[0]); |rest| == 0
  {
    assert IndexOf(remaining, remaining[0]) == 0;
  }

  /** Three requests from track 10: the SSTF order from service 2 on. */
  lemma DetourFrom2(head: int, remaining: seq<int>)
    requires head == 13 && |remaining| == 1 && remaining[0] == 0
    ensures var order := DiskScheduler.SstfOrder(head, remaining); |order| == 1 && order[0] == 0
  {
    DetourNearest2(head, remaining);
  }

  /** Three requests from track 10: head travel along the requests in arrival order and in SSTF order. */
  lemma DetourLegs(head: int)
    requires head == 10
    ensures DiskScheduler.FcfsTotal(head, [13, 8, 0]) == 16
    ensures DiskScheduler.FcfsTotal(head, [8, 13, 0]) == 20
  {
  }

  /** Three requests from track 10: SSTF travels 20 tracks. */
  lemma DetourSstf(head: int, requests: seq<int>)
    requires head == 10 && |requests| == 3 && requests[0] == 13 && requests[1] == 8 && requests[2] == 0
    ensures DiskScheduler.SstfTotal(head, requests) == 20
  {
    DetourFrom0(head, requests);
    FcfsOfElems(head, DiskScheduler.SstfOrder(head, requests), [8, 13, 0]);
    DetourLegs(head);
  }

  /** Three requests from track 10: FCFS travels 16 tracks and SSTF 20. */
  lemma SstfCanLoseToFcfs(head: int, requests: seq<int>)
    requires head == 10 && |requests| == 3 && requests[0] == 13 && requests[1] == 8 && requests[2] == 0
    ensures DiskScheduler.FcfsTotal(head, requests) == 16
    ensures DiskScheduler.SstfTotal(head, requests) == 20
  {
    DetourSstf(head, requests);
    FcfsOfElems(head, requests, [13, 8, 0]);
    DetourLegs(head);
  }
  /**
   * The single-process batch of the pipeline example: process 1 needing 256 units of
   * memory, with the classic reference string and the eight textbook track requests.
   */
  predicate IsExampleBatch(batch: seq<ProcessWorkload>)
  {
    && |batch| == 1
    && batch[0].pid == 1 && batch[0].memoryRequirement == 256
    && IsClassicReferences(batch[0].pageReferences)
    && IsTextbookTracks(batch[0].diskRequests)
  }

  /** The classic reference string 1, 2, 3, 4, 1, 2, 5, 1, 2, 3, 4, 5, position by position. */
  predicate IsClassicReferences(refs: seq<int>)
  {
    && |refs| == 12 && refs[0] == 1 && refs[1] == 2 && refs[2] == 3 && refs[3] == 4 && refs[4] == 1 && refs[5] == 2
    && refs[6] == 5 && refs[7] == 1 && refs[8] == 2 && refs[9] == 3 && refs[10] == 4 && refs[11] == 5
  }

  /** The textbook track requests 98, 183, 37, 122, 14, 124, 65, 67, position by position. */
  predicate IsTextbookTracks(tracks: seq<int>)
  {
    && |tracks| == 8 && tracks[0] == 98 && tracks[1] == 183 && tracks[2] == 37 && tracks[3] == 122
    && tracks[4] == 14 && tracks[5] == 124 && tracks[6] == 65 && tracks[7] == 67
  }

  /** Memory statistics of the example batch with three frames. */
  lemma PipelineMemory(batch: seq<ProcessWorkload>)
    requires IsExampleBatch(batch)
    ensures MemoryManager.SimulateMemory(batch, 3)
         == Ok(MemoryManager.AlgorithmStats(9, 10, 7, 12, 10.0 / 12.0))
  {
    assert MemoryManager.PageReferences(batch[1..]) == [];
    var refs := MemoryManager.PageReferences(batch);
    assert refs == batch[0].pageReferences + [];
    FifoExample(refs);
    LruExample(refs);
    OptimalExample(refs);
  }

  /** Disk statistics of the example batch with the head at track 53. */
  lemma PipelineDisk(batch: seq<ProcessWorkload>)
    requires IsExampleBatch(batch)
    ensures DiskScheduler.SimulateDisk(batch, 53) == DiskScheduler.DiskStats(640, 236, 8, 80.0)
  {
    assert DiskScheduler.DiskRequests(batch[1..]) == [];
    var tracks := DiskScheduler.DiskRequests(batch);
    assert tracks == batch[0].diskRequests + [];
    TextbookDiskExample(53, tracks);
  }

  /**
   * The statistics of the example batch through classification and advice: with the
   * default thresholds it is a disk bottleneck (FCFS 640 > 500, fault rate 10/12 below
   * 0.85) and the advice is to adopt SSTF.
   */
  lemma PipelineExample(memory: MemoryManager.AlgorithmStats, disk: DiskScheduler.DiskStats)
    requires memory == MemoryManager.AlgorithmStats(9, 10, 7, 12, 10.0 / 12.0)
    requires disk == DiskScheduler.DiskStats(640, 236, 8, 80.0)
    ensures var verdict := Analyzer.AnalyzePerformance(memory.AsMap(), disk.AsMap()).bottleneck;
            && verdict == Analyzer.DiskBottleneck
            && Suggestion.GetSuggestion(verdict) == "Adopt SSTF scheduling or move intensive workloads to SSD storage."
  {
    assert Analyzer.DiskPressure(disk.AsMap(), 500.0);
    assert Analyzer.Get(memory.AsMap(), "page_fault_rate", 0.0) == 10.0 / 12.0;
    assert "memory_percent" !in memory.AsMap();
    assert !Analyzer.MemoryPressure(memory.AsMap(), 0.85);
  }
}
