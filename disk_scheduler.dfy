/** Disk-head scheduling, disk_scheduler.py: FCFS and SSTF cumulative seek distance. */
module DiskScheduler {
  import opened Seqs
  import opened Workload

  /** Seek distance when the head starts at `head` and serves `requests` strictly in the given order. */
  function FcfsTotal(head: int, requests: seq<int>): (total: nat)
    ensures requests == [] ==> total == 0
    ensures forall i :: 0 <= i < |requests| ==> Abs(requests[i] - head) <= total
    decreases |requests|
  {
    if requests == [] then 0
    else
      Abs(requests[0] - head) + FcfsTotal(requests[0], requests[1..])
  }

  /** Serving `a` and then `b` costs the two legs, the second starting where the first stopped. */
  lemma {:induction false} FcfsSplit(head: int, a: seq<int>, b: seq<int>)
    requires a != []
    ensures FcfsTotal(head, a + b) == FcfsTotal(head, a) + FcfsTotal(a[|a| - 1], b)
    decreases |a|
  {
    if |a| == 1 {
      assert (a + b)[1..] == b;
    } else {
      assert (a + b)[1..] == a[1..] + b;
      FcfsSplit(a[0], a[1..], b);
    }
  }

  /**
   * `fcfs_seek_time`: 0 for no requests, otherwise the distance from the initial head to
   * the first request plus the distance between each pair of consecutive requests.
   */
  method FcfsSeekTime(requests: seq<int>, initialHead: int := 100) returns (total: nat)
    ensures total == FcfsTotal(initialHead, requests)
  {
    if |requests| == 0 {
      return 0;
    }
    total := Abs(initialHead - requests[0]);
    for i := 1 to |requests|
      invariant total + FcfsTotal(requests[i - 1], requests[i..]) == FcfsTotal(initialHead, requests)
    {
      assert requests[i - 1..][1..] == requests[i..];
      assert requests[i..][1..] == requests[i + 1..];
      total := total + Abs(requests[i] - requests[i - 1]);
    }
  }

  /**
   * `min(remaining, key=lambda r: abs(r - head))`: the position of a pending request
   * nearest the head, the first such position when several are equally near.
   */
  function ClosestIndex(remaining: seq<int>, head: int): (i: nat)
    requires |remaining| > 0
    ensures i < |remaining|
    ensures forall j :: 0 <= j < |remaining| ==> Abs(remaining[i] - head) <= Abs(remaining[j] - head)
    ensures forall j :: 0 <= j < i ==> Abs(remaining[i] - head) < Abs(remaining[j] - head)
  {
    var distances := seq(|remaining|, j requires 0 <= j < |remaining| => Abs(remaining[j] - head));
    assert forall j :: 0 <= j < |remaining| ==> distances[j] == Abs(remaining[j] - head);
    FirstMinIndex(distances)
  }

  /** `remaining.remove(x)`: drops exactly one occurrence of `x`, the first. */
  function RemoveFirst(s: seq<int>, x: int): (r: seq<int>)
    requires x in s
    ensures |r| == |s| - 1
  {
    var i := IndexOf(s, x);
    s[..i] + s[i + 1..]
  }

  /**
   * The copy removed is the first one: the requests before it stay where they are and
   * those after it move up by one, in their order.
   */
  lemma RemoveFirstKeepsOrder(s: seq<int>, x: int)
    requires x in s
    ensures var r := RemoveFirst(s, x);
            && (forall j :: 0 <= j < IndexOf(s, x) ==> r[j] == s[j])
            && (forall j :: IndexOf(s, x) <= j < |r| ==> r[j] == s[j + 1])
  {
  }

  /** Removing drops exactly one copy of `x` and keeps every other element. */
  lemma RemoveFirstMultiset(s: seq<int>, x: int)
    requires x in s
    ensures multiset(RemoveFirst(s, x)) == multiset(s) - multiset{x}
  {
    var i := IndexOf(s, x);
    assert s == s[..i] + [x] + s[i + 1..];
  }

  /**
   * The order SSTF serves `remaining` in from head position `head`: the nearest pending
   * request first, then the rest from there.
   */
  function SstfOrder(head: int, remaining: seq<int>): (order: seq<int>)
    ensures |order| == |remaining|
    decreases |remaining|
  {
    if remaining == [] then []
    else
      var closest := remaining[ClosestIndex(remaining, head)];
      [closest] + SstfOrder(closest, RemoveFirst(remaining, closest))
  }

  /** SSTF seek distance: the head's travel along the SSTF service order. */
  function SstfTotal(head: int, requests: seq<int>): (total: nat)
    ensures requests == [] ==> total == 0
    ensures forall x :: x in requests ==> Abs(x - head) <= total
  {
    SstfServesAll(head, requests);
    FcfsTotal(head, SstfOrder(head, requests))
  }

  /** SSTF serves every request exactly once: its order is a permutation of the requests. */
  lemma {:induction false} SstfOrderIsPermutation(head: int, requests: seq<int>)
    ensures multiset(SstfOrder(head, requests)) == multiset(requests)
    decreases |requests|
  {
    if requests != [] {
      var closest := requests[ClosestIndex(requests, head)];
      var rest := RemoveFirst(requests, closest);
      SstfOrderIsPermutation(closest, rest);
      RemoveFirstMultiset(requests, closest);
      assert multiset(requests) == multiset(rest) + multiset{closest};
    }
  }

  /** Every request appears in the SSTF service order. */
  lemma SstfServesAll(head: int, requests: seq<int>)
    ensures forall x :: x in requests ==> x in SstfOrder(head, requests)
  {
    SstfOrderIsPermutation(head, requests);
    forall x | x in requests
      ensures x in SstfOrder(head, requests)
    {
      assert x in multiset(requests);
    }
  }

  /** The head position just before the `i`-th service of `order`. */
  function HeadBefore(head: int, order: seq<int>, i: nat): int
    requires i <= |order|
  {
    if i == 0 then head else order[i - 1]
  }

  /** The first request SSTF serves is as near to the head as any request. */
  lemma SstfFirstIsNearest(head: int, requests: seq<int>, x: int)
    requires x in requests
    ensures Abs(SstfOrder(head, requests)[0] - head) <= Abs(x - head)
  {
    var j :| 0 <= j < |requests| && requests[j] == x;
  }

  /**
   * The requests still pending just before SSTF's `i`-th service: `remaining` as the
   * loop of `sstf_seek_time` holds it after `i` removals.
   */
  function Pending(head: int, remaining: seq<int>, i: nat): (p: seq<int>)
    requires i <= |remaining|
    ensures |p| == |remaining| - i
    decreases i
  {
    if i == 0 then remaining
    else
      var closest := remaining[ClosestIndex(remaining, head)];
      Pending(closest, RemoveFirst(remaining, closest), i - 1)
  }

  /** What SSTF has served before service `i > 0`: its first choice, then the rest's first `i - 1`. */
  lemma SstfServedShift(head: int, requests: seq<int>, i: nat)
    requires 0 < i <= |requests|
    ensures var closest := requests[ClosestIndex(requests, head)];
            multiset(SstfOrder(head, requests)[..i])
              == multiset{closest} + multiset(SstfOrder(closest, RemoveFirst(requests, closest))[..i - 1])
  {
    var closest := requests[ClosestIndex(requests, head)];
    var order := SstfOrder(head, requests);
    var sub := SstfOrder(closest, RemoveFirst(requests, closest));
    assert order[..i] == [closest] + sub[..i - 1];
  }

  /** Putting back the request served first restores the requests it was removed from. */
  lemma RestoreServed(pending: multiset<int>, served: multiset<int>, rest: multiset<int>,
                      requests: multiset<int>, closest: int)
    requires pending + served == rest && rest == requests - multiset{closest} && closest in requests
    ensures pending + (multiset{closest} + served) == requests
  {
    assert rest + multiset{closest} == requests;
  }

  /** The pending requests are exactly the requests minus those already served. */
  lemma {:induction false} PendingIsUnserved(head: int, requests: seq<int>, i: nat)
    requires i <= |requests|
    ensures multiset(Pending(head, requests, i)) + multiset(SstfOrder(head, requests)[..i]) == multiset(requests)
    decreases i
  {
    if i > 0 {
      var closest := requests[ClosestIndex(requests, head)];
      var rest := RemoveFirst(requests, closest);
      var pending := multiset(Pending(closest, rest, i - 1));
      var served := multiset(SstfOrder(closest, rest)[..i - 1]);
      assert pending + served == multiset(rest) by {
        PendingIsUnserved(closest, rest, i - 1);
      }
      assert multiset(SstfOrder(head, requests)[..i]) == multiset{closest} + served by {
        SstfServedShift(head, requests, i);
      }
      assert multiset(rest) == multiset(requests) - multiset{closest} by {
        RemoveFirstMultiset(requests, closest);
      }
      RestoreServed(pending, served, multiset(rest), multiset(requests), closest);
    }
  }

  /** SSTF's first service is the nearest request; the order goes on from there. */
  lemma SstfOrderCons(head: int, requests: seq<int>)
    requires requests != []
    ensures var closest := requests[ClosestIndex(requests, head)];
            SstfOrder(head, requests) == [closest] + SstfOrder(closest, RemoveFirst(requests, closest))
  {
  }

  /** What is pending before service `i > 0` is what is pending before service `i - 1` of the rest. */
  lemma PendingShift(head: int, requests: seq<int>, i: nat)
    requires 0 < i <= |requests|
    ensures var closest := requests[ClosestIndex(requests, head)];
            Pending(head, requests, i) == Pending(closest, RemoveFirst(requests, closest), i - 1)
  {
  }

  /** Whether service `i` is as near to the head position before it as the pending request `x`. */
  predicate GreedyAt(head: int, order: seq<int>, i: nat, x: int)
    requires i < |order|
  {
    Abs(order[i] - HeadBefore(head, order, i)) <= Abs(x - HeadBefore(head, order, i))
  }

  /**
   * Service `i > 0` from `head` is service `i - 1` of what is left after the first one,
   * from the same head position: a greedy choice there is a greedy choice here.
   */
  lemma GreedyShift(head: int, requests: seq<int>, i: nat, x: int)
    requires 0 < i < |requests|
    requires var closest := requests[ClosestIndex(requests, head)];
             GreedyAt(closest, SstfOrder(closest, RemoveFirst(requests, closest)), i - 1, x)
    ensures GreedyAt(head, SstfOrder(head, requests), i, x)
  {
    var closest := requests[ClosestIndex(requests, head)];
    var sub := SstfOrder(closest, RemoveFirst(requests, closest));
    var order := SstfOrder(head, requests);
    SstfOrderCons(head, requests);
    assert order[i] == sub[i - 1] && HeadBefore(head, order, i) == HeadBefore(closest, sub, i - 1);
  }

  /** Service 0 is greedy: it is as near to the starting head position as any request. */
  lemma GreedyFirst(head: int, requests: seq<int>, x: int)
    requires x in requests
    ensures GreedyAt(head, SstfOrder(head, requests), 0, x)
  {
    SstfFirstIsNearest(head, requests, x);
  }

  /**
   * SSTF is greedy: every request it serves is as near to the previous head position as
   * any request still pending at that point.
   */
  lemma {:induction false} SstfIsGreedy(head: int, requests: seq<int>, i: nat, x: int)
    requires i < |requests|
    requires x in Pending(head, requests, i)
    ensures GreedyAt(head, SstfOrder(head, requests), i, x)
    decreases i, 1
  {
    if i == 0 {
      GreedyFirst(head, requests, x);
    } else {
      GreedyLater(head, requests, i, x);
    }
  }

  /** The inductive step of `SstfIsGreedy`: service `i > 0` is greedy because its shift is. */
  lemma {:induction false} GreedyLater(head: int, requests: seq<int>, i: nat, x: int)
    requires 0 < i < |requests|
    requires x in Pending(head, requests, i)
    ensures GreedyAt(head, SstfOrder(head, requests), i, x)
    decreases i, 0
  {
    var closest := requests[ClosestIndex(requests, head)];
    var rest := RemoveFirst(requests, closest);
    PendingShift(head, requests, i);
    SstfIsGreedy(closest, rest, i - 1, x);
    GreedyShift(head, requests, i, x);
  }

  /**
   * `sstf_seek_time`: repeatedly serves the pending request nearest the head, removing
   * it from the pending list, until none is left.
   */
  method SstfSeekTime(requests: seq<int>, initialHead: int := 100) returns (total: nat)
    ensures total == SstfTotal(initialHead, requests)
  {
    var remaining := requests;
    var head := initialHead;
    total := 0;
    while remaining != []
      invariant total + FcfsTotal(head, SstfOrder(head, remaining)) == SstfTotal(initialHead, requests)
      decreases |remaining|
    {
      var closest := remaining[ClosestIndex(remaining, head)];
      ghost var rest := RemoveFirst(remaining, closest);
      assert SstfOrder(head, remaining) == [closest] + SstfOrder(closest, rest);
      assert ([closest] + SstfOrder(closest, rest))[1..] == SstfOrder(closest, rest);
      total := total + Abs(closest - head);
      head := closest;
      remaining := RemoveFirst(remaining, closest);
    }
  }

  /**
   * With no requests neither policy moves the head; with a single request both travel
   * straight to it.
   */
  lemma AtMostOneRequest(head: int, r: int)
    ensures FcfsTotal(head, []) == 0 && SstfTotal(head, []) == 0
    ensures FcfsTotal(head, [r]) == Abs(r - head) && SstfTotal(head, [r]) == Abs(r - head)
  {
    assert SstfOrder(head, [r]) == [r];
  }

  /** The totals `simulate_disk` reports. */
  datatype DiskStats = DiskStats(fcfs: nat, sstf: nat, requestCount: nat, averageSeek: real)
  {
    /** The `DiskStats` dictionary in the classifier's key vocabulary. */
    function AsMap(): (m: map<string, real>)
      ensures m.Keys == {"FCFS", "SSTF", "request_count", "average_seek"}
    {
      map["FCFS" := fcfs as real, "SSTF" := sstf as real,
          "request_count" := requestCount as real, "average_seek" := averageSeek]
    }
  }

  /** The comprehension in `simulate_disk`: every process's track requests, in batch order. */
  function DiskRequests(workload: seq<ProcessWorkload>): (merged: seq<int>)
    ensures |workload| == 1 ==> merged == workload[0].diskRequests
    ensures forall i, x :: 0 <= i < |workload| && x in workload[i].diskRequests ==> x in merged
    ensures forall x :: x in merged ==> exists i :: 0 <= i < |workload| && x in workload[i].diskRequests
    decreases |workload|
  {
    if workload == [] then [] else workload[0].diskRequests + DiskRequests(workload[1..])
  }

  /** Merging two batches merges their request streams in the same order. */
  lemma {:induction false} DiskRequestsAppend(a: seq<ProcessWorkload>, b: seq<ProcessWorkload>)
    ensures DiskRequests(a + b) == DiskRequests(a) + DiskRequests(b)
    decreases |a|
  {
    if a != [] {
      assert (a + b)[1..] == a[1..] + b;
      DiskRequestsAppend(a[1..], b);
    } else {
      assert a + b == b;
    }
  }

  /**
   * `simulate_disk`: all zeros for a batch without requests; otherwise both totals on the
   * merged stream, its length and the mean FCFS seek per request.
   */
  function SimulateDisk(workload: seq<ProcessWorkload>, initialHead: int := 100): (r: DiskStats)
    ensures DiskRequests(workload) == [] ==> r == DiskStats(0, 0, 0, 0.0)
    ensures DiskRequests(workload) != [] ==>
              && r.fcfs == FcfsTotal(initialHead, DiskRequests(workload))
              && r.sstf == SstfTotal(initialHead, DiskRequests(workload))
              && r.requestCount == |DiskRequests(workload)|
              && r.averageSeek == Ratio(r.fcfs, r.requestCount)
    ensures r.averageSeek >= 0.0
  {
    var requests := DiskRequests(workload);
    if requests == [] then DiskStats(0, 0, 0, 0.0)
    else
      var fcfsTotal := FcfsTotal(initialHead, requests);
      var sstfTotal := SstfTotal(initialHead, requests);
      DiskStats(fcfsTotal, sstfTotal, |requests|, Ratio(fcfsTotal, |requests|))
  }
}
