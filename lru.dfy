/** LRU page replacement, `lru_page_faults` in memory_manager.py. */
module LruPolicy {
  import opened Wrappers
  import opened Seqs
  import opened PageFrames

  /** The loop state: the resident list, the `last_used` table and the fault count. */
  datatype LruState = LruState(frames: seq<int>, lastUsed: map<int, int>, faults: nat)

  const Start := LruState([], map[], 0)

  /** The shape `Step` needs: at least one frame, and the list fits in the frames. */
  predicate Shaped(st: LruState, k: nat)
  {
    0 < k && |st.frames| <= k
  }

  /** `last_used.get(p, -1)`. */
  function Recency(lastUsed: map<int, int>, p: int): (r: int)
    ensures p in lastUsed ==> r == lastUsed[p]
    ensures p !in lastUsed ==> r == -1
  {
    if p in lastUsed then lastUsed[p] else -1
  }

  /**
   * `min(frames, key=lambda p: last_used.get(p, -1))`: a resident page with the smallest
   * recorded index, the first one in list order when several share it.
   */
  function LeastRecentlyUsed(frames: seq<int>, lastUsed: map<int, int>): (p: int)
    requires |frames| > 0
    ensures p in frames
    ensures forall q :: q in frames ==> Recency(lastUsed, p) <= Recency(lastUsed, q)
    ensures forall j :: 0 <= j < IndexOf(frames, p) ==> Recency(lastUsed, p) < Recency(lastUsed, frames[j])
  {
    var keys := seq(|frames|, j requires 0 <= j < |frames| => Recency(lastUsed, frames[j]));
    var i := FirstMinIndex(keys);
    assert forall q :: q in frames ==> exists j :: 0 <= j < |frames| && frames[j] == q && keys[j] == Recency(lastUsed, q);
    assert IndexOf(frames, frames[i]) <= i;
    assert forall j :: 0 <= j < |frames| ==> keys[j] == Recency(lastUsed, frames[j]);
    frames[i]
  }

  /**
   * The reference at position `idx`: it is always recorded in `last_used`; a fault appends
   * while a frame is free and otherwise overwrites the least recently used page.
   */
  function Step(st: LruState, page: int, idx: int, k: nat): (r: LruState)
    requires Shaped(st, k)
    ensures Shaped(r, k)
  {
    if page in st.frames then LruState(st.frames, st.lastUsed[page := idx], st.faults)
    else
      var victim := if |st.frames| < k then 0 else IndexOf(st.frames, LeastRecentlyUsed(st.frames, st.lastUsed));
      LruState(Place(st.frames, page, k, victim), st.lastUsed[page := idx], st.faults + 1)
  }

  /** Replays the remaining references from `st`; `idx` is the position of `refs[0]`. */
  function Run(st: LruState, refs: seq<int>, idx: int, k: nat): (r: LruState)
    requires Shaped(st, k)
    ensures Shaped(r, k)
    decreases |refs|
  {
    if refs == [] then st else Run(Step(st, refs[0], idx, k), refs[1..], idx + 1, k)
  }

  /**
   * The number of LRU faults on `refs` with `k` frames: between the number of distinct
   * pages and the number of references, and exactly the distinct count when all pages
   * fit in the frames.
   */
  function Faults(refs: seq<int>, k: nat): (n: nat)
    requires k > 0
    ensures |Elems(refs)| <= n <= |refs|
    ensures |Elems(refs)| <= k ==> n == |Elems(refs)|
  {
    AccountsStart(k);
    RunAccounts(Start, [], refs, 0, k);
    assert [] + refs == refs;
    Run(Start, refs, 0, k).faults
  }

  /** One reference keeps the fault accounting of the resident list. */
  lemma StepAccounts(st: LruState, seen: seq<int>, page: int, idx: int, k: nat)
    requires Shaped(st, k) && Accounts(st.frames, st.faults, seen, k)
    ensures Accounts(Step(st, page, idx, k).frames, Step(st, page, idx, k).faults, seen + [page], k)
  {
    var victim := if |st.frames| < k || page in st.frames then 0
                  else IndexOf(st.frames, LeastRecentlyUsed(st.frames, st.lastUsed));
    AccessKeeps(st.frames, st.faults, seen, k, page, victim);
  }

  /** Replaying more references keeps the fault accounting of the resident list. */
  lemma {:induction false} RunAccounts(st: LruState, seen: seq<int>, refs: seq<int>, idx: int, k: nat)
    requires Shaped(st, k) && Accounts(st.frames, st.faults, seen, k)
    ensures Accounts(Run(st, refs, idx, k).frames, Run(st, refs, idx, k).faults, seen + refs, k)
    decreases |refs|
  {
    if refs == [] {
      assert seen + refs == seen;
    } else {
      StepAccounts(st, seen, refs[0], idx, k);
      RunAccounts(Step(st, refs[0], idx, k), seen + [refs[0]], refs[1..], idx + 1, k);
      assert seen + [refs[0]] + refs[1..] == seen + refs;
    }
  }

  /** The position of the most recent reference to `p` in `s`, or -1 if there is none. */
  function LastUse(s: seq<int>, p: int): (i: int)
    ensures -1 <= i < |s|
    ensures i >= 0 ==> s[i] == p
    ensures i == -1 <==> p !in s
    ensures forall j :: i < j < |s| ==> s[j] != p
  {
    if s == [] then -1
    else if s[|s| - 1] == p then |s| - 1
    else LastUse(s[..|s| - 1], p)
  }

  lemma LastUseAppend(s: seq<int>, x: int, p: int)
    ensures LastUse(s + [x], p) == if x == p then |s| else LastUse(s, p)
  {
    assert (s + [x])[..|s|] == s;
  }

  /** After replaying `seen`, `last_used` holds for every page the position of its latest reference. */
  ghost predicate Remembers(st: LruState, seen: seq<int>)
  {
    forall p :: Recency(st.lastUsed, p) == LastUse(seen, p)
  }

  /** One reference, hit or fault, records its own position in `last_used`. */
  lemma StepRemembers(st: LruState, seen: seq<int>, page: int, k: nat)
    requires Shaped(st, k) && Remembers(st, seen)
    ensures Remembers(Step(st, page, |seen|, k), seen + [page])
  {
    var next := Step(st, page, |seen|, k);
    forall p
      ensures Recency(next.lastUsed, p) == LastUse(seen + [page], p)
    {
      LastUseAppend(seen, page, p);
    }
  }

  /** Every reference, hit or fault, records its own position in `last_used`. */
  lemma {:induction false} RunRemembers(st: LruState, seen: seq<int>, refs: seq<int>, k: nat)
    requires Shaped(st, k) && Remembers(st, seen)
    ensures Remembers(Run(st, refs, |seen|, k), seen + refs)
    decreases |refs|
  {
    if refs == [] {
      assert seen + refs == seen;
    } else {
      var page := refs[0];
      StepRemembers(st, seen, page, k);
      RunRemembers(Step(st, page, |seen|, k), seen + [page], refs[1..], k);
      assert seen + [page] + refs[1..] == seen + refs;
    }
  }

  /**
   * In a state that remembers `seen`, the page `LeastRecentlyUsed` picks was referenced
   * strictly longer ago than every other resident page.
   */
  lemma LeastRecentIsStrict(st: LruState, seen: seq<int>, k: nat, q: int)
    requires Accounts(st.frames, st.faults, seen, k) && Remembers(st, seen)
    requires q in st.frames
    ensures var v := LeastRecentlyUsed(st.frames, st.lastUsed);
            v in st.frames && (q != v ==> LastUse(seen, v) < LastUse(seen, q))
  {
    var v := LeastRecentlyUsed(st.frames, st.lastUsed);
    assert Recency(st.lastUsed, v) == LastUse(seen, v);
    assert Recency(st.lastUsed, q) == LastUse(seen, q);
    assert q in Elems(st.frames) && v in Elems(st.frames);
    assert q in seen && v in seen;
  }

  /**
   * After any prefix `refs` that filled the frames, the page LRU would evict next is
   * strictly the least recently referenced resident page: its latest reference comes
   * before that of every other resident page, so no tie ever has to be broken.
   */
  lemma EvictsLeastRecent(refs: seq<int>, k: nat, q: int)
    requires k > 0
    requires |Run(Start, refs, 0, k).frames| == k
    requires q in Run(Start, refs, 0, k).frames
    ensures var st := Run(Start, refs, 0, k);
            var v := LeastRecentlyUsed(st.frames, st.lastUsed);
            v in st.frames && (q != v ==> LastUse(refs, v) < LastUse(refs, q))
  {
    AccountsStart(k);
    RunAccounts(Start, [], refs, 0, k);
    RunRemembers(Start, [], refs, k);
    assert [] + refs == refs;
    LeastRecentIsStrict(Run(Start, refs, 0, k), refs, k, q);
  }

  /** `lru_page_faults`: counts the faults of LRU replacement with `frameCount` frames. */
  method LruPageFaults(referenceString: seq<int>, frameCount: int) returns (r: Result<nat>)
    ensures frameCount <= 0 ==> r == Err(InvalidParameter("frame_count must be positive"))
    ensures frameCount > 0 ==> r == Ok(Faults(referenceString, frameCount))
    ensures frameCount > 0 ==> |Elems(referenceString)| <= r.value <= |referenceString|
  {
    if frameCount <= 0 {
      return Err(InvalidParameter("frame_count must be positive"));
    }
    var frames: seq<int> := [];
    var lastUsed: map<int, int> := map[];
    var faults: nat := 0;
    for idx := 0 to |referenceString|
      invariant Shaped(LruState(frames, lastUsed, faults), frameCount)
      invariant Run(LruState(frames, lastUsed, faults), referenceString[idx..], idx, frameCount)
             == Run(Start, referenceString, 0, frameCount)
    {
      var page := referenceString[idx];
      assert referenceString[idx..][1..] == referenceString[idx + 1..];
      if page in frames {
        lastUsed := lastUsed[page := idx];
        continue;
      }
      faults := faults + 1;
      if |frames| < frameCount {
        frames := frames + [page];
      } else {
        var lruPage := LeastRecentlyUsed(frames, lastUsed);
        var replaceIndex := IndexOf(frames, lruPage);
        frames := frames[replaceIndex := page];
      }
      lastUsed := lastUsed[page := idx];
    }
    return Ok(faults);
  }
}
