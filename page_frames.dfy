/**
 * The resident-page list shared by the three replacement policies of memory_manager.py,
 * and the fault accounting every policy obeys whatever victim it picks.
 */
module PageFrames {
  import opened Seqs

  /** The resident list never exceeds the frame count and never holds a page twice. */
  ghost predicate Resident(frames: seq<int>, k: nat)
  {
    |frames| <= k && NoDup(frames)
  }

  /**
   * What a policy does with a page that faulted: append it while a frame is free,
   * otherwise overwrite the victim slot.
   */
  function Place(frames: seq<int>, page: int, k: nat, victim: nat): (r: seq<int>)
    requires page !in frames
    requires |frames| < k || victim < |frames|
    ensures Resident(frames, k) ==> Resident(r, k)
    ensures page in r && Elems(r) <= Elems(frames) + {page}
    ensures |frames| < k ==> r == frames + [page]
    ensures |frames| >= k ==> |r| == |frames| && r[victim] == page
    ensures |frames| >= k ==> forall j :: 0 <= j < |r| && j != victim ==> r[j] == frames[j]
  {
    if |frames| < k then frames + [page]
    else
      var r := frames[victim := page];
      assert r[victim] == page;
      assert forall x :: x in r ==> x == page || x in frames;
      r
  }

  /**
   * The accounting invariant after replaying the references `seen` with `k` frames:
   * the resident pages were all referenced, every distinct page faulted at least once,
   * no reference faulted twice, and while the distinct pages fit in the frames nothing
   * was ever evicted.
   */
  ghost predicate Accounts(frames: seq<int>, faults: nat, seen: seq<int>, k: nat)
  {
    && Resident(frames, k)
    && Elems(frames) <= Elems(seen)
    && |Elems(seen)| <= faults <= |seen|
    && (|Elems(seen)| <= k ==> Elems(frames) == Elems(seen) && faults == |Elems(seen)|)
  }

  /** Before any reference the list is empty and nothing has faulted. */
  lemma AccountsStart(k: nat)
    ensures Accounts([], 0, [], k)
  {
    assert Elems<int>([]) == {};
  }

  /**
   * One reference keeps the accounting, whatever slot a policy chooses as victim:
   * a hit leaves list and count alone, a fault places the page and counts once.
   */
  lemma AccessKeeps(frames: seq<int>, faults: nat, seen: seq<int>, k: nat, page: int, victim: nat)
    requires Accounts(frames, faults, seen, k)
    requires page !in frames ==> |frames| < k || victim < |frames|
    ensures page in frames ==> Accounts(frames, faults, seen + [page], k)
    ensures page !in frames ==> Accounts(Place(frames, page, k, victim), faults + 1, seen + [page], k)
  {
    ElemsAppend(seen, page);
    if page in frames {
      assert page in Elems(frames);
      assert Elems(seen + [page]) == Elems(seen);
    } else if page in Elems(seen) {
      assert Elems(seen + [page]) == Elems(seen);
      assert page !in Elems(frames);
      assert |Elems(seen)| > k;
    } else {
      assert |Elems(seen + [page])| == |Elems(seen)| + 1;
      if |Elems(seen + [page])| <= k {
        NoDupCard(frames);
        assert |frames| < k;
        ElemsAppend(frames, page);
      }
    }
  }
}
