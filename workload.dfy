/** Synthetic workload generation, `generate_workload` in workload.py. */
module Workload {
  import opened Wrappers

  /** One process's resource needs; built once by the generator and never changed. */
  datatype ProcessWorkload = ProcessWorkload(
    pid: int,
    memoryRequirement: int,
    pageReferences: seq<int>,
    diskRequests: seq<int>)

  /**
   * `randint(lo, hi)` answered by draw number `n` of the seeded stream: an integer in
   * `[lo, hi]`, both ends included.
   */
  function Draw(stream: nat -> nat, n: nat, lo: int, hi: int): (x: int)
    requires lo <= hi
    ensures lo <= x <= hi
  {
    lo + stream(n) % (hi - lo + 1)
  }

  /** The `count` draws from draw number `start` on, each an integer in `[lo, hi]`. */
  function Draws(stream: nat -> nat, start: nat, count: nat, lo: int, hi: int): (xs: seq<int>)
    requires lo <= hi
    ensures |xs| == count
    ensures forall j :: 0 <= j < count ==> xs[j] == Draw(stream, start + j, lo, hi)
    ensures forall j :: 0 <= j < count ==> lo <= xs[j] <= hi
  {
    seq(count, j requires 0 <= j => Draw(stream, start + j, lo, hi))
  }

  /**
   * `random.Random(seed)`: the seed fixes a stream of raw draws, and every `randint`
   * consumes the next one.
   */
  class Rng {
    const stream: nat -> nat
    var drawn: nat

    constructor (seed: nat -> nat)
      ensures stream == seed && drawn == 0
    {
      stream := seed;
      drawn := 0;
    }

    method RandInt(lo: int, hi: int) returns (x: int)
      requires lo <= hi
      modifies this
      ensures x == Draw(stream, old(drawn), lo, hi)
      ensures drawn == old(drawn) + 1
    {
      x := Draw(stream, drawn, lo, hi);
      drawn := drawn + 1;
    }

    /** `[randint(lo, hi) for _ in range(count)]`: the next `count` draws, in order. */
    method RandInts(count: nat, lo: int, hi: int) returns (xs: seq<int>)
      requires lo <= hi
      modifies this
      ensures xs == Draws(stream, old(drawn), count, lo, hi)
      ensures drawn == old(drawn) + count
    {
      xs := [];
      for j := 0 to count
        invariant |xs| == j && drawn == old(drawn) + j
        invariant forall t :: 0 <= t < j ==> xs[t] == Draw(stream, old(drawn) + t, lo, hi)
      {
        var x := RandInt(lo, hi);
        xs := xs + [x];
      }
    }
  }

  /** The draws one process takes: its memory requirement, its page references, its disk requests. */
  function DrawsPerProcess(referenceLength: nat, diskRequests: nat): nat
  {
    1 + referenceLength + diskRequests
  }

  /**
   * The process with id `pid` as the generator builds it: its draws start where the
   * previous process's ended and come in the order memory requirement, page references,
   * disk requests.
   */
  function ProcessAt(seed: nat -> nat, pid: nat, memoryRange: (int, int), referenceLength: nat,
                     numPages: nat, diskRequests: nat, diskTrackRange: (int, int)): (p: ProcessWorkload)
    requires pid >= 1 && numPages > 0
    requires memoryRange.0 <= memoryRange.1 && diskTrackRange.0 <= diskTrackRange.1
    ensures Conforms(p, pid, memoryRange, referenceLength, numPages, diskRequests, diskTrackRange)
  {
    var base := (pid - 1) * DrawsPerProcess(referenceLength, diskRequests);
    ProcessWorkload(
      pid,
      Draw(seed, base, memoryRange.0, memoryRange.1),
      Draws(seed, base + 1, referenceLength, 0, numPages - 1),
      Draws(seed, base + 1 + referenceLength, diskRequests, diskTrackRange.0, diskTrackRange.1))
  }

  /** The batch the generator returns for valid parameters: processes 1 to `numProcesses`. */
  function Generated(seed: nat -> nat, numProcesses: nat, memoryRange: (int, int), referenceLength: nat,
                     numPages: nat, diskRequests: nat, diskTrackRange: (int, int)): (w: seq<ProcessWorkload>)
    requires numPages > 0
    requires memoryRange.0 <= memoryRange.1 && diskTrackRange.0 <= diskTrackRange.1
    ensures |w| == numProcesses
    ensures forall i :: 0 <= i < |w| ==>
              w[i] == ProcessAt(seed, i + 1, memoryRange, referenceLength, numPages, diskRequests, diskTrackRange)
  {
    seq(numProcesses, i requires 0 <= i =>
      ProcessAt(seed, i + 1, memoryRange, referenceLength, numPages, diskRequests, diskTrackRange))
  }

  /** A process record with the promised id, lengths and value ranges. */
  ghost predicate Conforms(p: ProcessWorkload, pid: int, memoryRange: (int, int), referenceLength: int,
                           numPages: int, diskRequests: int, diskTrackRange: (int, int))
  {
    && p.pid == pid
    && memoryRange.0 <= p.memoryRequirement <= memoryRange.1
    && |p.pageReferences| == referenceLength
    && (forall j :: 0 <= j < |p.pageReferences| ==> 0 <= p.pageReferences[j] < numPages)
    && |p.diskRequests| == diskRequests
    && (forall j :: 0 <= j < |p.diskRequests| ==> diskTrackRange.0 <= p.diskRequests[j] <= diskTrackRange.1)
  }

  /**
   * The generated batch has exactly `numProcesses` records with ids 1, 2, ... in order,
   * each with the requested lengths and every value inside its range.
   */
  lemma GeneratedShape(seed: nat -> nat, numProcesses: nat, memoryRange: (int, int), referenceLength: nat,
                       numPages: nat, diskRequests: nat, diskTrackRange: (int, int))
    requires numPages > 0
    requires memoryRange.0 <= memoryRange.1 && diskTrackRange.0 <= diskTrackRange.1
    ensures var w := Generated(seed, numProcesses, memoryRange, referenceLength, numPages, diskRequests, diskTrackRange);
            && |w| == numProcesses
            && forall i :: 0 <= i < |w| ==>
                 Conforms(w[i], i + 1, memoryRange, referenceLength, numPages, diskRequests, diskTrackRange)
  {
    var w := Generated(seed, numProcesses, memoryRange, referenceLength, numPages, diskRequests, diskTrackRange);
    forall i | 0 <= i < |w|
      ensures Conforms(w[i], i + 1, memoryRange, referenceLength, numPages, diskRequests, diskTrackRange)
    {
      var p := ProcessAt(seed, i + 1, memoryRange, referenceLength, numPages, diskRequests, diskTrackRange);
      var base := i * DrawsPerProcess(referenceLength, diskRequests);
      assert w[i] == p;
      assert forall j :: 0 <= j < referenceLength ==> p.pageReferences[j] == Draw(seed, base + 1 + j, 0, numPages - 1);
      assert forall j :: 0 <= j < diskRequests ==>
        p.diskRequests[j] == Draw(seed, base + 1 + referenceLength + j, diskTrackRange.0, diskTrackRange.1);
    }
  }

  lemma MulMono(a: nat, b: nat, c: nat)
    requires a <= b
    ensures a * c <= b * c
  {
  }

  /**
   * The batch depends on nothing but the first `numProcesses * DrawsPerProcess` draws:
   * two seeds whose streams agree there give the identical batch.
   */
  lemma SameDrawsSameBatch(seed1: nat -> nat, seed2: nat -> nat, numProcesses: nat, memoryRange: (int, int),
                           referenceLength: nat, numPages: nat, diskRequests: nat, diskTrackRange: (int, int))
    requires numPages > 0
    requires memoryRange.0 <= memoryRange.1 && diskTrackRange.0 <= diskTrackRange.1
    requires forall n: nat :: n < numProcesses * DrawsPerProcess(referenceLength, diskRequests) ==> seed1(n) == seed2(n)
    ensures Generated(seed1, numProcesses, memoryRange, referenceLength, numPages, diskRequests, diskTrackRange)
         == Generated(seed2, numProcesses, memoryRange, referenceLength, numPages, diskRequests, diskTrackRange)
  {
    var w1 := Generated(seed1, numProcesses, memoryRange, referenceLength, numPages, diskRequests, diskTrackRange);
    var w2 := Generated(seed2, numProcesses, memoryRange, referenceLength, numPages, diskRequests, diskTrackRange);
    var size := DrawsPerProcess(referenceLength, diskRequests);
    forall i | 0 <= i < numProcesses
      ensures w1[i] == w2[i]
    {
      MulMono(i + 1, numProcesses, size);
      assert (i + 1) * size == i * size + size;
      var base := i * size;
      assert (i + 1 - 1) * size == base;
      assert w1[i] == ProcessAt(seed1, i + 1, memoryRange, referenceLength, numPages, diskRequests, diskTrackRange);
      assert w2[i] == ProcessAt(seed2, i + 1, memoryRange, referenceLength, numPages, diskRequests, diskTrackRange);
      assert w1[i].memoryRequirement == w2[i].memoryRequirement;
      assert w1[i].pageReferences == w2[i].pageReferences by {
        forall j | 0 <= j < referenceLength
          ensures w1[i].pageReferences[j] == w2[i].pageReferences[j]
        {
          assert seed1(base + 1 + j) == seed2(base + 1 + j);
          assert w1[i].pageReferences[j] == Draw(seed1, base + 1 + j, 0, numPages - 1);
          assert w2[i].pageReferences[j] == Draw(seed2, base + 1 + j, 0, numPages - 1);
        }
      }
      assert w1[i].diskRequests == w2[i].diskRequests by {
        forall j | 0 <= j < diskRequests
          ensures w1[i].diskRequests[j] == w2[i].diskRequests[j]
        {
          assert seed1(base + 1 + referenceLength + j) == seed2(base + 1 + referenceLength + j);
          assert w1[i].diskRequests[j] == Draw(seed1, base + 1 + referenceLength + j, diskTrackRange.0, diskTrackRange.1);
          assert w2[i].diskRequests[j] == Draw(seed2, base + 1 + referenceLength + j, diskTrackRange.0, diskTrackRange.1);
        }
      }
    }
  }

  /**
   * `generate_workload`: validates the counts, then builds `numProcesses` records drawing
   * from the generator seeded with `seed`.
   */
  method GenerateWorkload(numProcesses: int := 5, memoryRange: (int, int) := (128, 512),
                          referenceLength: int := 30, numPages: int := 32, diskRequests: int := 15,
                          diskTrackRange: (int, int) := (0, 499), seed: nat -> nat)
    returns (r: Result<seq<ProcessWorkload>>)
    requires numProcesses > 0 && referenceLength > 0 && numPages > 0 && diskRequests > 0 ==>
               memoryRange.0 <= memoryRange.1 && diskTrackRange.0 <= diskTrackRange.1
    ensures numProcesses <= 0 ==> r == Err(InvalidParameter("num_processes must be a positive integer"))
    ensures numProcesses > 0 && (referenceLength <= 0 || numPages <= 0 || diskRequests <= 0) ==>
              r == Err(InvalidParameter("reference_length, num_pages, and disk_requests must be positive"))
    ensures r.Ok? <==> numProcesses > 0 && referenceLength > 0 && numPages > 0 && diskRequests > 0
    ensures r.Ok? ==> r.value == Generated(seed, numProcesses, memoryRange, referenceLength, numPages,
                                           diskRequests, diskTrackRange)
    ensures r.Ok? ==> |r.value| == numProcesses && forall i :: 0 <= i < |r.value| ==>
              Conforms(r.value[i], i + 1, memoryRange, referenceLength, numPages, diskRequests, diskTrackRange)
  {
    if numProcesses <= 0 {
      return Err(InvalidParameter("num_processes must be a positive integer"));
    }
    if referenceLength <= 0 || numPages <= 0 || diskRequests <= 0 {
      return Err(InvalidParameter("reference_length, num_pages, and disk_requests must be positive"));
    }
    var rng := new Rng(seed);
    var processes: seq<ProcessWorkload> := [];
    ghost var size := DrawsPerProcess(referenceLength, diskRequests);
    for pid := 1 to numProcesses + 1
      invariant |processes| == pid - 1
      invariant rng.stream == seed && rng.drawn == (pid - 1) * size
      invariant forall i :: 0 <= i < pid - 1 ==>
        processes[i] == ProcessAt(seed, i + 1, memoryRange, referenceLength, numPages, diskRequests, diskTrackRange)
    {
      ghost var base := rng.drawn;
      var memoryRequirement := rng.RandInt(memoryRange.0, memoryRange.1);
      var pageRefs := rng.RandInts(referenceLength, 0, numPages - 1);
      var diskRefs := rng.RandInts(diskRequests, diskTrackRange.0, diskTrackRange.1);
      processes := processes + [ProcessWorkload(pid, memoryRequirement, pageRefs, diskRefs)];
      assert processes[pid - 1]
          == ProcessAt(seed, pid, memoryRange, referenceLength, numPages, diskRequests, diskTrackRange);
      assert pid * size == (pid - 1) * size + size;
    }
    var batch := Generated(seed, numProcesses, memoryRange, referenceLength, numPages, diskRequests, diskTrackRange);
    assert processes == batch;
    GeneratedShape(seed, numProcesses, memoryRange, referenceLength, numPages, diskRequests, diskTrackRange);
    return Ok(processes);
  }
}
