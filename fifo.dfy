/** FIFO page replacement, `fifo_page_faults` in memory_manager.py. */
module FifoPolicy {
  import opened Wrappers
  import opened Seqs
  import opened PageFrames

  /** The loop state: the resident list, the rotating victim pointer and the fault count. */
  datatype FifoState = FifoState(frames: seq<int>, pointer: nat, faults: nat)

  const Start := FifoState([], 0, 0)

  /**
   * A reachable state: a valid resident list, a pointer inside the `k` slots, and the
   * pointer still at slot 0 while the list is filling up.
   */
  ghost predicate Wf(st: FifoState, k: nat)
  {
    && Shaped(st, k)
    && NoDup(st.frames)
    && (|st.frames| < k ==> st.pointer == 0)
  }

  /** The shape `Step` needs: the list fits in the frames and the pointer is a slot index. */
  predicate Shaped(st: FifoState, k: nat)
  {
    |st.frames| <= k && st.pointer < k
  }

  /** One reference: a hit changes nothing; a fault appends or overwrites the slot at the pointer. */
  function Step(st: FifoState, page: int, k: nat): (r: FifoState)
    requires Shaped(st, k)
    ensures Shaped(r, k) && (Wf(st, k) ==> Wf(r, k))
  {
    if page in st.frames then st
    else if |st.frames| < k then FifoState(Place(st.frames, page, k, st.pointer), st.pointer, st.faults + 1)
    else FifoState(Place(st.frames, page, k, st.pointer), (st.pointer + 1) % k, st.faults + 1)
  }

  /** Replays the remaining references from `st`. */
  function Run(st: FifoState, refs: seq<int>, k: nat): (r: FifoState)
    requires Shaped(st, k)
    ensures Shaped(r, k) && (Wf(st, k) ==> Wf(r, k))
    decreases |refs|
  {
    if refs == [] then st else Run(Step(st, refs[0], k), refs[1..], k)
  }

  /**
   * The number of FIFO faults on `refs` with `k` frames: between the number of distinct
   * pages and the number of references, and exactly the distinct count when all pages
   * fit in the frames.
   */
  function Faults(refs: seq<int>, k: nat): (n: nat)
    requires k > 0
    ensures |Elems(refs)| <= n <= |refs|
    ensures |Elems(refs)| <= k ==> n == |Elems(refs)|
  {
    AccountsStart(k);
    RunAccounts(Start, [], refs, k);
    assert [] + refs == refs;
    Run(Start, refs, k).faults
  }

  /** One reference keeps the fault accounting of the resident list. */
  lemma StepAccounts(st: FifoState, seen: seq<int>, page: int, k: nat)
    requires Wf(st, k) && Accounts(st.frames, st.faults, seen, k)
    ensures Accounts(Step(st, page, k).frames, Step(st, page, k).faults, seen + [page], k)
  {
    AccessKeeps(st.frames, st.faults, seen, k, page, st.pointer);
  }

  /** Replaying more references keeps the fault accounting of the resident list. */
  lemma {:induction false} RunAccounts(st: FifoState, seen: seq<int>, refs: seq<int>, k: nat)
    requires Wf(st, k) && Accounts(st.frames, st.faults, seen, k)
    ensures Accounts(Run(st, refs, k).frames, Run(st, refs, k).faults, seen + refs, k)
    decreases |refs|
  {
    if refs == [] {
      assert seen + refs == seen;
    } else {
      StepAccounts(st, seen, refs[0], k);
      RunAccounts(Step(st, refs[0], k), seen + [refs[0]], refs[1..], k);
      assert seen + [refs[0]] + refs[1..] == seen + refs;
    }
  }

  /**
   * The resident pages read from the pointer onwards and then wrapping round: the pages
   * in the order they were brought in, oldest first.
   */
  function Queue(st: FifoState): seq<int>
    requires st.pointer <= |st.frames|
  {
    st.frames[st.pointer..] + st.frames[..st.pointer]
  }

  /** The textbook FIFO queue: evict the oldest page, append the new one. */
  datatype QueueState = QueueState(queue: seq<int>, faults: nat)

  function QueueStep(q: QueueState, page: int, k: nat): QueueState
    requires k > 0
  {
    if page in q.queue then q
    else if |q.queue| < k then QueueState(q.queue + [page], q.faults + 1)
    else QueueState(q.queue[1..] + [page], q.faults + 1)
  }

  function QueueRun(q: QueueState, refs: seq<int>, k: nat): QueueState
    requires k > 0
    decreases |refs|
  {
    if refs == [] then q else QueueRun(QueueStep(q, refs[0], k), refs[1..], k)
  }

  /** Wrapping once round `k` slots. */
  lemma ModOnce(x: nat, k: nat)
    requires 0 < k && x < 2 * k
    ensures x % k == if x < k then x else x - k
  {
    if x >= k {
      assert x == 1 * k + (x - k);
    }
  }

  /** Position `j` of the rotated list is slot `(pointer + j) % k`. */
  lemma QueueAt(st: FifoState, k: nat, j: nat)
    requires Wf(st, k) && j < |st.frames|
    ensures |Queue(st)| == |st.frames|
    ensures |st.frames| == k ==> Queue(st)[j] == st.frames[(st.pointer + j) % k]
    ensures |st.frames| < k ==> Queue(st)[j] == st.frames[j]
  {
    var f, p := st.frames, st.pointer;
    if |f| == k {
      ModOnce(p + j, k);
      if p + j < k {
        assert Queue(st)[j] == f[p..][j];
      } else {
        assert Queue(st)[j] == f[..p][j - (k - p)];
      }
    }
  }

  /** Rotation keeps the set of resident pages. */
  lemma QueueElems(st: FifoState, k: nat, page: int)
    requires Wf(st, k)
    ensures page in Queue(st) <==> page in st.frames
  {
    assert st.frames == st.frames[..st.pointer] + st.frames[st.pointer..];
  }

  /** While the list is filling up the pointer stays at 0 and the rotated view is the list itself. */
  lemma QueueWhileFilling(st: FifoState, k: nat)
    requires Wf(st, k) && |st.frames| < k
    ensures Queue(st) == st.frames
  {
    assert st.frames[0..] == st.frames && st.frames[..0] == [];
  }

  /** A fault on a full list: overwriting the pointer's slot drops the oldest page. */
  lemma EvictIsDequeue(st: FifoState, page: int, k: nat)
    requires Wf(st, k) && |st.frames| == k && page !in st.frames
    ensures Queue(Step(st, page, k)) == Queue(st)[1..] + [page]
  {
    var r := Step(st, page, k);
    var p := st.pointer;
    var expected := Queue(st)[1..] + [page];
    QueueAt(st, k, 0);
    ModOnce(p + 1, k);
    assert |Queue(r)| == k == |expected|;
    forall j | 0 <= j < k
      ensures Queue(r)[j] == expected[j]
    {
      QueueAt(r, k, j);
      ModOnce(r.pointer + j, k);
      ModOnce(p + j + 1, k);
      if j < k - 1 {
        QueueAt(st, k, j + 1);
      }
    }
  }

  /** One FIFO step with the rotating pointer is one step of the queue. */
  lemma StepIsQueueStep(st: FifoState, page: int, k: nat)
    requires Wf(st, k)
    ensures QueueState(Queue(Step(st, page, k)), Step(st, page, k).faults)
         == QueueStep(QueueState(Queue(st), st.faults), page, k)
  {
    QueueElems(st, k, page);
    if page !in st.frames {
      if |st.frames| < k {
        QueueWhileFilling(st, k);
        var r := Step(st, page, k);
        if |r.frames| < k {
          QueueWhileFilling(r, k);
        } else {
          assert Queue(r) == r.frames[0..] + r.frames[..0];
          assert r.frames[0..] == r.frames && r.frames[..0] == [];
        }
      } else {
        EvictIsDequeue(st, page, k);
      }
    }
  }

  /**
   * FIFO replays exactly as the textbook queue: pages are evicted in the order they
   * were brought in, whatever happened to them in between.
   */
  lemma {:induction false} RunIsQueueRun(st: FifoState, refs: seq<int>, k: nat)
    requires Wf(st, k)
    ensures QueueState(Queue(Run(st, refs, k)), Run(st, refs, k).faults)
         == QueueRun(QueueState(Queue(st), st.faults), refs, k)
    decreases |refs|
  {
    if refs != [] {
      StepIsQueueStep(st, refs[0], k);
      RunIsQueueRun(Step(st, refs[0], k), refs[1..], k);
    }
  }

  /** The fault count of `fifo_page_faults` is the fault count of the textbook FIFO queue. */
  lemma FaultsAreQueueFaults(refs: seq<int>, k: nat)
    requires k > 0
    ensures Faults(refs, k) == QueueRun(QueueState([], 0), refs, k).faults
  {
    RunIsQueueRun(Start, refs, k);
  }

  /** `fifo_page_faults`: counts the faults of FIFO replacement with `frameCount` frames. */
  method FifoPageFaults(referenceString: seq<int>, frameCount: int) returns (r: Result<nat>)
    ensures frameCount <= 0 ==> r == Err(InvalidParameter("frame_count must be positive"))
    ensures frameCount > 0 ==> r == Ok(Faults(referenceString, frameCount))
    ensures frameCount > 0 ==> |Elems(referenceString)| <= r.value <= |referenceString|
  {
    if frameCount <= 0 {
      return Err(InvalidParameter("frame_count must be positive"));
    }
    var frames: seq<int> := [];
    var pointer: nat := 0;
    var faults: nat := 0;
    for i := 0 to |referenceString|
      invariant Wf(FifoState(frames, pointer, faults), frameCount)
      invariant Run(FifoState(frames, pointer, faults), referenceString[i..], frameCount)
             == Run(Start, referenceString, frameCount)
    {
      var page := referenceString[i];
      assert referenceString[i..][1..] == referenceString[i + 1..];
      if page in frames {
        continue;
      }
      faults := faults + 1;
      if |frames| < frameCount {
        frames := frames + [page];
      } else {
        frames := frames[pointer := page];
        pointer := (pointer + 1) % frameCount;
      }
    }
    return Ok(faults);
  }
}
