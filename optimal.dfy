/** Optimal (Belady) page replacement, `optimal_page_faults` in memory_manager.py. */
module OptimalPolicy {
  import opened Wrappers
  import opened Seqs
  import opened PageFrames

  /** The loop state: the resident list and the fault count. */
  datatype OptState = OptState(frames: seq<int>, faults: nat)

  const Start := OptState([], 0)

  /** The shape `Step` needs: at least one frame, and the list fits in the frames. */
  predicate Shaped(st: OptState, k: nat)
  {
    0 < k && |st.frames| <= k
  }

  /** Distance to a page's next reference: an offset into the future, or `float("inf")`. */
  datatype NextUse = At(offset: nat) | Never

  /** `future_refs.index(p)`, with `Never` where the lookup raises `ValueError`. */
  function NextUseOf(future: seq<int>, p: int): (d: NextUse)
    ensures d.At? ==> d.offset < |future| && future[d.offset] == p
    ensures d.At? ==> forall j :: 0 <= j < d.offset ==> future[j] != p
    ensures d.Never? <==> p !in future
  {
    if p in future then At(IndexOf(future, p)) else Never
  }

  /** `a > b` on distances, with `Never` above every offset. */
  predicate Farther(a: NextUse, b: NextUse)
  {
    match a
    case Never => b.At?
    case At(x) => b.At? && x > b.offset
  }

  /** `max` over keys in order: the first position holding a distance nothing else exceeds. */
  function FurthestIndex(dists: seq<NextUse>): (i: nat)
    requires |dists| > 0
    ensures i < |dists|
    ensures forall j :: 0 <= j < |dists| ==> !Farther(dists[j], dists[i])
    ensures forall j :: 0 <= j < i ==> Farther(dists[i], dists[j])
  {
    if |dists| == 1 then 0
    else
      var rest := 1 + FurthestIndex(dists[1..]);
      if Farther(dists[rest], dists[0]) then rest else 0
  }

  /** The `next_use` table the source builds for the resident pages, keyed by page. */
  function NextUses(frames: seq<int>, future: seq<int>): (m: map<int, NextUse>)
    ensures forall p :: p in m <==> p in frames
    ensures forall p :: p in m ==> m[p] == NextUseOf(future, p)
  {
    map p | p in frames :: NextUseOf(future, p)
  }

  /**
   * `max(next_use, key=next_use.get)`: the resident page whose next use is furthest away,
   * the first one in list order among equals (the table was filled in list order).
   */
  function FurthestPage(frames: seq<int>, nextUse: map<int, NextUse>): (p: int)
    requires |frames| > 0
    requires forall j :: 0 <= j < |frames| ==> frames[j] in nextUse
    ensures p in frames && p in nextUse
    ensures forall j :: 0 <= j < |frames| ==> !Farther(nextUse[frames[j]], nextUse[p])
    ensures forall j :: 0 <= j < IndexOf(frames, p) ==> Farther(nextUse[p], nextUse[frames[j]])
  {
    var dists := seq(|frames|, j requires 0 <= j < |frames| => nextUse[frames[j]]);
    var i := FurthestIndex(dists);
    assert IndexOf(frames, frames[i]) <= i;
    assert forall j :: 0 <= j < |frames| ==> dists[j] == nextUse[frames[j]];
    frames[i]
  }

  /**
   * One reference, with `future` the references after it: a fault appends while a frame
   * is free and otherwise overwrites the page whose next use is furthest away.
   */
  function Step(st: OptState, page: int, future: seq<int>, k: nat): (r: OptState)
    requires Shaped(st, k)
    ensures Shaped(r, k)
  {
    if page in st.frames then st
    else
      var victim := if |st.frames| < k then 0
                    else IndexOf(st.frames, FurthestPage(st.frames, NextUses(st.frames, future)));
      OptState(Place(st.frames, page, k, victim), st.faults + 1)
  }

  /** Replays the remaining references from `st`, each step looking ahead at the rest. */
  function Run(st: OptState, refs: seq<int>, k: nat): (r: OptState)
    requires Shaped(st, k)
    ensures Shaped(r, k)
    decreases |refs|
  {
    if refs == [] then st else Run(Step(st, refs[0], refs[1..], k), refs[1..], k)
  }

  /**
   * The number of Optimal faults on `refs` with `k` frames: between the number of distinct
   * pages and the number of references, and exactly the distinct count when all pages
   * fit in the frames.
   */
  function Faults(refs: seq<int>, k: nat): (n: nat)
    requires k > 0
    ensures |Elems(refs)| <= n <= |refs|
    ensures |Elems(refs)| <= k ==> n == |Elems(refs)|
  {
    AccountsStart(k);
    RunAccounts(Start, [], refs, k);
    assert [] + refs == refs;
    Run(Start, refs, k).faults
  }

  /** One reference keeps the fault accounting of the resident list. */
  lemma StepAccounts(st: OptState, seen: seq<int>, page: int, future: seq<int>, k: nat)
    requires Shaped(st, k) && Accounts(st.frames, st.faults, seen, k)
    ensures Accounts(Step(st, page, future, k).frames, Step(st, page, future, k).faults, seen + [page], k)
  {
    var victim := if |st.frames| < k || page in st.frames then 0
                  else IndexOf(st.frames, FurthestPage(st.frames, NextUses(st.frames, future)));
    AccessKeeps(st.frames, st.faults, seen, k, page, victim);
  }

  /** Replaying more references keeps the fault accounting of the resident list. */
  lemma {:induction false} RunAccounts(st: OptState, seen: seq<int>, refs: seq<int>, k: nat)
    requires Shaped(st, k) && Accounts(st.frames, st.faults, seen, k)
    ensures Accounts(Run(st, refs, k).frames, Run(st, refs, k).faults, seen + refs, k)
    decreases |refs|
  {
    if refs == [] {
      assert seen + refs == seen;
    } else {
      StepAccounts(st, seen, refs[0], refs[1..], k);
      RunAccounts(Step(st, refs[0], refs[1..], k), seen + [refs[0]], refs[1..], k);
      assert seen + [refs[0]] + refs[1..] == seen + refs;
    }
  }

  /**
   * The victim choice: no resident page is next used later than the victim, a page never
   * used again counts as furthest of all, and every resident page before the victim in
   * list order is next used strictly sooner.
   */
  lemma VictimIsFurthest(frames: seq<int>, future: seq<int>, q: int)
    requires |frames| > 0 && q in frames
    ensures var v := FurthestPage(frames, NextUses(frames, future));
            && v in frames
            && (v in future ==> q in future && IndexOf(future, q) <= IndexOf(future, v))
            && (q !in future ==> v !in future)
            && (forall j :: 0 <= j < IndexOf(frames, v) ==>
                  Farther(NextUseOf(future, v), NextUseOf(future, frames[j])))
  {
    var m := NextUses(frames, future);
    var v := FurthestPage(frames, m);
    var iq := IndexOf(frames, q);
    assert !Farther(m[frames[iq]], m[v]);
    assert m[q] == NextUseOf(future, q) && m[v] == NextUseOf(future, v);
    forall j | 0 <= j < IndexOf(frames, v)
      ensures Farther(NextUseOf(future, v), NextUseOf(future, frames[j]))
    {
      assert Farther(m[v], m[frames[j]]);
    }
  }

  /** The inner loop of `optimal_page_faults` that fills `next_use` for the resident pages. */
  method NextUseTable(frames: seq<int>, futureRefs: seq<int>) returns (nextUse: map<int, NextUse>)
    ensures nextUse == NextUses(frames, futureRefs)
  {
    nextUse := map[];
    for j := 0 to |frames|
      invariant forall p :: p in nextUse <==> p in frames[..j]
      invariant forall p :: p in nextUse ==> nextUse[p] == NextUseOf(futureRefs, p)
    {
      var framePage := frames[j];
      assert frames[..j + 1] == frames[..j] + [framePage];
      if framePage in futureRefs {
        nextUse := nextUse[framePage := At(IndexOf(futureRefs, framePage))];
      } else {
        nextUse := nextUse[framePage := Never];
      }
    }
    assert frames[..|frames|] == frames;
    var table := NextUses(frames, futureRefs);
    assert forall p :: p in nextUse <==> p in table;
    assert nextUse.Keys == table.Keys;
    assert forall p :: p in nextUse ==> nextUse[p] == table[p];
  }

  /** `optimal_page_faults`: counts the faults of Belady's replacement with `frameCount` frames. */
  method OptimalPageFaults(referenceString: seq<int>, frameCount: int) returns (r: Result<nat>)
    ensures frameCount <= 0 ==> r == Err(InvalidParameter("frame_count must be positive"))
    ensures frameCount > 0 ==> r == Ok(Faults(referenceString, frameCount))
    ensures frameCount > 0 ==> |Elems(referenceString)| <= r.value <= |referenceString|
  {
    if frameCount <= 0 {
      return Err(InvalidParameter("frame_count must be positive"));
    }
    var frames: seq<int> := [];
    var faults: nat := 0;
    for idx := 0 to |referenceString|
      invariant Shaped(OptState(frames, faults), frameCount)
      invariant Run(OptState(frames, faults), referenceString[idx..], frameCount)
             == Run(Start, referenceString, frameCount)
    {
      var page := referenceString[idx];
      assert referenceString[idx..][1..] == referenceString[idx + 1..];
      if page in frames {
        continue;
      }
      faults := faults + 1;
      if |frames| < frameCount {
        frames := frames + [page];
        continue;
      }
      var futureRefs := referenceString[idx + 1..];
      var nextUse := NextUseTable(frames, futureRefs);
      var pageToReplace := FurthestPage(frames, nextUse);
      var replaceIndex := IndexOf(frames, pageToReplace);
      frames := frames[replaceIndex := page];
    }
    return Ok(faults);
  }
}
