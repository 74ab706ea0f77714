/** Claiming segments in a parallel scan, and reporting who claimed what. */
module ScanClaims {
  import opened Options

  type SegmentId = nat

  /** A worker number below -1, the leader's, marks a segment nobody has claimed. */
  const UNCLAIMED: int := -2

  /** Queries are counted for so many processes: the leader and the first workers. */
  const WORKER_METRICS_MAX_COUNT := 256

  const U16_MAX := 65535

  /** The indexes from `lo` on that `worker` claimed, in descending order. */
  function ClaimedBy(claims: seq<int>, worker: int, lo: nat): seq<int>
    requires lo <= |claims|
    decreases |claims| - lo
  {
    if lo == |claims| then []
    else ClaimedBy(claims, worker, lo + 1) + if claims[lo] == worker then [lo] else []
  }

  lemma {:induction false} ClaimedByMembers(claims: seq<int>, worker: int, lo: nat)
    requires lo <= |claims|
    ensures forall i :: i in ClaimedBy(claims, worker, lo) <==> lo <= i < |claims| && claims[i] == worker
    decreases |claims| - lo
  {
    if lo < |claims| {
      ClaimedByMembers(claims, worker, lo + 1);
    }
  }

  ghost predicate Descending(r: seq<int>) {
    forall j, k :: 0 <= j < k < |r| ==> r[j] > r[k]
  }

  lemma {:induction false} ClaimedByDescends(claims: seq<int>, worker: int, lo: nat)
    requires lo <= |claims|
    ensures Descending(ClaimedBy(claims, worker, lo))
    decreases |claims| - lo
  {
    if lo < |claims| {
      ClaimedByDescends(claims, worker, lo + 1);
      ClaimedByMembers(claims, worker, lo + 1);
      var rest := ClaimedBy(claims, worker, lo + 1);
      forall j | 0 <= j < |rest|
        ensures rest[j] > lo
      {
        assert rest[j] in rest;
      }
    }
  }

  /** Group the claimed indexes by worker, back to front. */
  method Explain(claims: seq<int>) returns (workers: map<int, seq<int>>)
    ensures forall w :: w in workers <==> w in claims && w > UNCLAIMED
    ensures forall w :: w in workers ==> workers[w] == ClaimedBy(claims, w, 0)
  {
    workers := map[];
    var i: nat := |claims|;
    while i > 0
      invariant i <= |claims|
      invariant forall w :: w in workers <==> w in claims[i..] && w > UNCLAIMED
      invariant forall w :: w in workers ==> workers[w] == ClaimedBy(claims, w, i)
      invariant forall w :: w > UNCLAIMED && w !in workers ==> ClaimedBy(claims, w, i) == []
    {
      i := i - 1;
      assert claims[i..] == [claims[i]] + claims[i + 1..];
      var worker := claims[i];
      if worker <= UNCLAIMED {
        continue;
      }
      workers := workers[worker := (if worker in workers then workers[worker] else []) + [i]];
    }
    assert claims[0..] == claims;
  }

  /** A report lists every claimed segment once, under its claimer and nobody else, and no unclaimed one. */
  lemma EachClaimIsListedOnce(claims: seq<int>, workers: map<int, seq<int>>, i: nat)
    requires i < |claims|
    requires forall w :: w in workers <==> w in claims && w > UNCLAIMED
    requires forall w :: w in workers ==> workers[w] == ClaimedBy(claims, w, 0)
    ensures forall w :: w in workers ==> (i in workers[w] <==> w == claims[i])
    ensures claims[i] > UNCLAIMED ==> claims[i] in workers
    ensures forall w :: w in workers ==> Descending(workers[w])
  {
    forall w | w in workers
      ensures i in workers[w] <==> w == claims[i]
      ensures Descending(workers[w])
    {
      ClaimedByMembers(claims, w, 0);
      ClaimedByDescends(claims, w, 0);
    }
  }

  // ---------- Counting queries ----------

  /** How often `worker` has asked, as far as sixteen bits can say. */
  ghost function Asked(asked: seq<int>, worker: int): nat {
    if multiset(asked)[worker] < 65535 then multiset(asked)[worker] else 65535
  }

  /** The counters after the given queries. */
  ghost function Counters(asked: seq<int>): seq<nat> {
    seq(256, k => Asked(asked, k - 1))
  }

  /** The counter of a worker, unless it has none. */
  function QueryCount(counts: seq<nat>, worker: int): Option<nat>
    requires worker >= -1
  {
    if worker + 1 < |counts| then Some(counts[worker + 1]) else None
  }

  function OrZero(count: Option<nat>): nat {
    if count.Some? then count.value else 0
  }

  /** The counts of the given workers together. */
  function Total(counts: seq<nat>, workers: set<int>): nat {
    if counts == [] then 0
    else
      var last := |counts| - 1;
      Total(counts[..last], workers) + if last - 1 in workers then counts[last] else 0
  }

  /** A worker that is not counted adds nothing, and any other adds its count once. */
  lemma {:induction false} TotalWithout(counts: seq<nat>, workers: set<int>, worker: int)
    requires worker in workers && worker >= -1
    ensures Total(counts, workers) ==
            Total(counts, workers - {worker}) + OrZero(QueryCount(counts, worker))
  {
    if counts != [] {
      TotalWithout(counts[..|counts| - 1], workers, worker);
    }
  }

  lemma {:induction false} TotalOfNone(counts: seq<nat>)
    ensures Total(counts, {}) == 0
  {
    if counts != [] {
      TotalOfNone(counts[..|counts| - 1]);
    }
  }

  method CountQueries(counts: seq<nat>, workers: set<int>) returns (queries: map<int, Option<nat>>, total: nat)
    requires forall w :: w in workers ==> w >= -1
    ensures queries.Keys == workers && total == Total(counts, workers)
    ensures forall w :: w in workers ==> queries[w] == QueryCount(counts, w)
  {
    queries, total := map[], 0;
    var left := workers;
    while left != {}
      invariant left <= workers && queries.Keys == workers - left
      invariant total + Total(counts, left) == Total(counts, workers)
      invariant forall w :: w in queries ==> queries[w] == QueryCount(counts, w)
      decreases |left|
    {
      assert (forall w :: w !in left) ==> left == {};
      var w :| w in left;
      TotalWithout(counts, left, w);
      queries := queries[w := QueryCount(counts, w)];
      total, left := total + OrZero(QueryCount(counts, w)), left - {w};
    }
    TotalOfNone(counts);
  }

  class ParallelScanState {
    const segmentIds: seq<SegmentId>
    const claims: array<int>
    const queries: array<nat>
    var remaining: nat
    // the worker of each claim, and of each query
    ghost var history: seq<int>
    ghost var asked: seq<int>

    /** Segments are claimed from the back: the `k`-th claim took the `k`-th segment from the end,
        and no other segment is claimed. */
    ghost predicate Valid()
      reads this, claims, queries
    {
      var n := |segmentIds|;
      && (queries as object) != (claims as object) && queries[..] == Counters(asked)
      && claims.Length == n && |history| + remaining == n
      && (forall w :: w in history ==> w > UNCLAIMED)
      && (forall i :: 0 <= i < n ==> claims[i] == if i < remaining then UNCLAIMED else history[n - 1 - i])
    }

    constructor (segmentIds: seq<SegmentId>)
      ensures Valid() && this.segmentIds == segmentIds && history == asked == []
      ensures fresh(claims) && fresh(queries)
    {
      this.segmentIds := segmentIds;
      claims := new int[|segmentIds|](_ => UNCLAIMED);
      queries := new nat[WORKER_METRICS_MAX_COUNT](_ => 0);
      remaining, history, asked := |segmentIds|, [], [];
    }

    /** Claim the last unclaimed segment for `worker`. */
    method Checkout(worker: int) returns (r: Option<SegmentId>)
      requires Valid() && worker >= -1
      modifies this, claims
      ensures Valid() && asked == old(asked)
      ensures r.None? <==> old(remaining) == 0
      ensures r.None? ==> history == old(history)
      ensures r.Some? ==> history == old(history) + [worker] && r.value == segmentIds[|segmentIds| - |history|]
    {
      if remaining == 0 {
        return None;
      }
      remaining := remaining - 1;
      claims[remaining] := worker;
      history := history + [worker];
      r := Some(segmentIds[remaining]);
    }

    /** One more query by `worker`, which only the first workers have a counter for. */
    method IncrementQueryCount(worker: int)
      requires Valid() && worker >= -1
      modifies this`asked, queries
      ensures Valid() && asked == old(asked) + [worker]
    {
      if worker + 1 < queries.Length && queries[worker + 1] < U16_MAX {
        queries[worker + 1] := queries[worker + 1] + 1;
      }
      asked := asked + [worker];
    }

    /** The report at any moment: worker `w` is listed with exactly the segments of its own claims
        and with the number of its queries, if that is counted. */
    method ExplainData() returns (workers: map<int, seq<int>>, counts: map<int, Option<nat>>, total: nat)
      requires Valid()
      ensures counts.Keys == workers.Keys
      ensures forall w :: w in counts ==> w >= -1
      ensures forall w :: w in counts ==>
                counts[w] == if w + 1 < 256 then Some(Asked(asked, w)) else None
      ensures total == Total(Counters(asked), workers.Keys)
      ensures forall w :: w in workers <==> w in history
      ensures forall w :: w in workers ==> workers[w] == ClaimedBy(claims[..], w, 0)
      ensures forall i, w :: 0 <= i < |segmentIds| && w in workers ==>
                (i in workers[w] <==> i >= remaining && history[|segmentIds| - 1 - i] == w)
    {
      workers := Explain(claims[..]);
      counts, total := CountQueries(queries[..], workers.Keys);
      forall w | w in history
        ensures w in claims[..]
      {
        var k :| 0 <= k < |history| && history[k] == w;
        assert claims[..][|segmentIds| - 1 - k] == w;
      }
      ghost var all := claims[..];
      forall i, w | 0 <= i < |segmentIds| && w in workers
        ensures i in workers[w] <==> i >= remaining && history[|segmentIds| - 1 - i] == w
      {
        ClaimedByMembers(all, w, 0);
        assert all[i] == claims[i];
      }
    }
  }
}
