/** How the segments of an index are dealt out: the number of build workers and how many segments each
    of them is to make, and the segments each aggregate worker takes from the shared pile. */
module WorkDivision {
  import opened Options

  // ---------- Chunks ----------

  function ChunkStart(n: nat, m: nat, i: nat): nat
    requires 0 < m
  {
    n / m * i + if i < n % m then i else n % m
  }

  function ChunkLength(n: nat, m: nat, i: nat): nat
    requires 0 < m
  {
    n / m + if i < n % m then 1 else 0
  }

  function ChunkRange(n: nat, m: nat, i: nat): (nat, nat)
    requires 0 < m
  {
    (ChunkStart(n, m, i), ChunkLength(n, m, i))
  }

  /** The `m` chunks lie end to end and fill `0..n`. */
  lemma ChunksTile(n: nat, m: nat, i: nat)
    requires 0 < m
    ensures ChunkStart(n, m, 0) == 0
    ensures ChunkStart(n, m, m) == n
    ensures ChunkStart(n, m, i) + ChunkLength(n, m, i) == ChunkStart(n, m, i + 1)
  {
    assert n / m * (i + 1) == n / m * i + n / m;
    assert n / m * m + n % m == n;
  }

  /** No two chunks differ by more than one, and the longer ones come first. An index past the last
      chunk has the length of the last one. */
  lemma ChunksAreEven(n: nat, m: nat, i: nat, j: nat)
    requires 0 < m && i <= j
    ensures ChunkLength(n, m, j) <= ChunkLength(n, m, i) <= ChunkLength(n, m, j) + 1
    ensures m - 1 <= i ==> ChunkLength(n, m, i) == ChunkLength(n, m, m - 1)
  {
  }

  /** Every chunk has something in it if and only if there are no more chunks than things. */
  lemma NoChunkIsEmpty(n: nat, m: nat)
    requires 0 < m
    ensures (forall i: nat :: i < m ==> 0 < ChunkLength(n, m, i)) <==> m <= n
  {
    if m <= n {
      assert n / m * m + n % m == n;
    } else {
      assert n / m == 0 && n % m == n;
      assert ChunkLength(n, m, m - 1) == 0;
    }
  }

  /** The lengths of the first `k` chunks. */
  function Lengths(n: nat, m: nat, k: nat): (r: seq<nat>)
    requires 0 < m
    ensures |r| == k && forall i :: 0 <= i < k ==> r[i] == ChunkLength(n, m, i)
  {
    seq(k, i requires 0 <= i => ChunkLength(n, m, i))
  }

  function Sum(s: seq<nat>): nat {
    if s == [] then 0 else Sum(s[..|s| - 1]) + s[|s| - 1]
  }

  lemma {:induction false} LengthsAddUp(n: nat, m: nat, k: nat)
    requires 0 < m
    ensures Sum(Lengths(n, m, k)) == ChunkStart(n, m, k)
  {
    if k == 0 {
      ChunksTile(n, m, 0);
    } else {
      LengthsAddUp(n, m, k - 1);
      ChunksTile(n, m, k - 1);
      assert Lengths(n, m, k)[..k - 1] == Lengths(n, m, k - 1);
    }
  }

  // ---------- Build workers ----------

  const SMALLEST_HEAP := 15 * 1024 * 1024

  /** A small table gets one segment. */
  function AdjustedTarget(target: nat, rows: nat, heapBytes: nat): nat {
    if rows <= target || heapBytes <= SMALLEST_HEAP then 1 else target
  }

  function Min(a: nat, b: nat): nat {
    if a < b then a else b
  }

  /** The settings the number of workers depends on; `tableWorkers` is the table's own setting, not
      positive if it has none. */
  datatype Settings = Settings(tableWorkers: int, maxMaintenance: nat, maxWorkers: nat, maxProcesses: nat, leaderParticipates: bool)

  /** How many workers to ask for, besides the leader. */
  function BuildWorkers(target: nat, s: Settings): nat
    requires 0 < target
  {
    if target == 1 then 0
    else
      var wanted := if s.tableWorkers <= 0 then s.maxMaintenance else s.tableWorkers;
      var workers := Min(Min(wanted, s.maxWorkers), s.maxProcesses);
      var most := (target + 1) / 2;
      if workers == 0 then 0
      else if s.leaderParticipates && Min(workers, most) == most then most - 1
      else Min(workers, most)
  }

  /** A target of one is built without workers. Otherwise there are as many as the settings allow
      such that all participants together are at most half as many as the segments, rounded up. */
  lemma BuildWorkersIsLargest(target: nat, s: Settings, n: nat)
    requires 0 < target
    ensures target == 1 ==> BuildWorkers(target, s) == 0
    ensures 1 < target ==>
              (n <= BuildWorkers(target, s) <==>
               || n == 0
               || (&& n <= s.maxWorkers && n <= s.maxProcesses
                   && (if s.tableWorkers <= 0 then n <= s.maxMaintenance else n <= s.tableWorkers)
                   && 2 * (n + if s.leaderParticipates then 1 else 0) <= target + 1))
  {
  }

  /** How many segments one participant is to make. */
  function SegmentTarget(target: nat, participants: nat, number: nat): nat
    requires 0 < participants
  {
    var (_, length) := ChunkRange(target, participants, number);
    if length < 1 then 1 else length
  }

  /** With as many participants as segments, or more, each is to make one. */
  lemma OneEach(target: nat, participants: nat, number: nat)
    requires 0 < target <= participants
    ensures SegmentTarget(target, participants, number) == 1
  {
    ChunksAreEven(target, participants, number, number);
    if target < participants {
      assert target / participants == 0;
    } else {
      assert target / participants == 1 && target % participants == 0;
    }
  }

  /** What each participant is to make when `launched` workers started. The workers count from 0; the
      leader takes the number of all participants, itself included, which is one past the last chunk.
      Without any worker the backend builds alone, as number 1 of 1. */
  function SegmentTargets(target: nat, launched: nat, leaderParticipates: bool): seq<nat> {
    if launched == 0 then [SegmentTarget(target, 1, 1)]
    else
      var participants := launched + if leaderParticipates then 1 else 0;
      seq(launched, i requires 0 <= i => SegmentTarget(target, participants, i))
      + if leaderParticipates then [SegmentTarget(target, participants, participants)] else []
  }

  /** However many of the workers asked for start, the participants' targets add up to the index's
      target, and no target had to be raised to one. */
  lemma BuildTargetsAddUp(target: nat, s: Settings, launched: nat)
    requires 0 < target && launched <= BuildWorkers(target, s)
    ensures Sum(SegmentTargets(target, launched, s.leaderParticipates)) == target
    ensures forall k :: 0 <= k < |SegmentTargets(target, launched, s.leaderParticipates)| ==>
                          0 < SegmentTargets(target, launched, s.leaderParticipates)[k]
  {
    var m := if launched == 0 then 1 else launched + if s.leaderParticipates then 1 else 0;
    assert m <= target;
    NoChunkIsEmpty(target, m);
    forall i: nat
      ensures 0 < ChunkLength(target, m, i)
    {
      assert 0 < ChunkLength(target, m, m - 1);
      ChunksAreEven(target, m, if i < m - 1 then i else m - 1, if i < m - 1 then m - 1 else i);
    }
    ChunksAreEven(target, m, m, m);
    var targets := SegmentTargets(target, launched, s.leaderParticipates);
    assert |targets| == m;
    forall k: nat | k < m
      ensures targets[k] == ChunkLength(target, m, k)
    {
      assert targets[k] == SegmentTarget(target, m, if k < launched then k else m);
    }
    assert targets == Lengths(target, m, m);
    LengthsAddUp(target, m, m);
    ChunksTile(target, m, 0);
  }

  /** A small table is built without workers into one segment; any other is divided by its target. */
  lemma SmallTableIsOneSegment(target: nat, rows: nat, heapBytes: nat, s: Settings, launched: nat)
    requires 0 < target && launched <= BuildWorkers(AdjustedTarget(target, rows, heapBytes), s)
    ensures var targets := SegmentTargets(AdjustedTarget(target, rows, heapBytes), launched, s.leaderParticipates);
            if rows <= target || heapBytes <= 15_728_640 then launched == 0 && targets == [1]
            else Sum(targets) == target
  {
    BuildTargetsAddUp(AdjustedTarget(target, rows, heapBytes), s, launched);
  }

  // ---------- Aggregate workers ----------

  /** How many workers to ask for, besides the leader: never more participants than segments. */
  function AggregateWorkers(nsegments: nat, maxPerGather: nat, leaderParticipates: bool): nat {
    var n := Min(maxPerGather, nsegments);
    if 0 < n && leaderParticipates then n - 1 else n
  }

  /** There are as many as allowed such that the participants are no more than the segments. */
  lemma AggregateWorkersIsLargest(nsegments: nat, maxPerGather: nat, leaderParticipates: bool, n: nat)
    ensures n <= AggregateWorkers(nsegments, maxPerGather, leaderParticipates) <==>
            || n == 0
            || (var all := n + if leaderParticipates then 1 else 0;
                all <= nsegments && all <= maxPerGather)
  {
  }

  /** The number a participant divides the work by: the leader is 0 and workers follow it. */
  datatype WorkerStyle = ParallelLeader | ParallelWorker(number: nat) | NonParallel {
    function WorkerNumber(leaderParticipates: bool): nat {
      match this
      case ParallelWorker(n) => if leaderParticipates then n + 1 else n
      case _ => 0
    }
  }

  function Participants(launched: nat, leaderParticipates: bool): seq<WorkerStyle> {
    if launched == 0 && !leaderParticipates then [NonParallel]
    else
      (if leaderParticipates then [ParallelLeader] else [])
      + seq(launched, i requires 0 <= i => ParallelWorker(i))
  }

  /** The participants number themselves 0, 1, 2 and so on, and are no more than the segments unless
      there are no segments. */
  lemma ParticipantsAreNumbered(nsegments: nat, maxPerGather: nat, leaderParticipates: bool, launched: nat)
    requires launched <= AggregateWorkers(nsegments, maxPerGather, leaderParticipates)
    ensures var ps := Participants(launched, leaderParticipates);
            && 0 < |ps|
            && (|ps| <= nsegments || nsegments == 0)
            && (forall k :: 0 <= k < |ps| ==> ps[k].WorkerNumber(leaderParticipates) == k)
            && (launched == 0 || |ps| == launched + if leaderParticipates then 1 else 0)
            && (ParallelLeader in ps <==> leaderParticipates)
            && (NonParallel in ps <==> launched == 0 && !leaderParticipates)
  {
  }

  type SegmentId = nat

  /** The shared count and what each participant holds. */
  datatype Pile = Pile(remaining: nat, held: seq<seq<SegmentId>>, done: seq<bool>)

  function Nothing(m: nat): seq<seq<SegmentId>> {
    seq(m, _ => [])
  }

  function Fresh(ids: seq<SegmentId>, m: nat): Pile {
    Pile(|ids|, Nothing(m), seq(m, _ => false))
  }

  predicate CanStep(p: Pile, shares: seq<nat>, w: nat) {
    w < |p.held| == |p.done| == |shares| && !p.done[w]
  }

  /** One participant goes round its loop once: it takes the last segment left, and stops when there
      is none or when it has its share. */
  function Step(p: Pile, ids: seq<SegmentId>, shares: seq<nat>, w: nat): Pile
    requires CanStep(p, shares, w) && p.remaining <= |ids|
  {
    if p.remaining == 0 then p.(done := p.done[w := true])
    else
      var held := p.held[w] + [ids[p.remaining - 1]];
      Pile(p.remaining - 1, p.held[w := held], p.done[w := |held| == shares[w]])
  }

  ghost predicate IsRun(piles: seq<Pile>, steps: seq<nat>, ids: seq<SegmentId>, shares: seq<nat>) {
    && |piles| == |steps| + 1
    && piles[0] == Fresh(ids, |shares|)
    && forall k :: 0 <= k < |steps| ==>
                     && CanStep(piles[k], shares, steps[k])
                     && piles[k].remaining <= |ids|
                     && piles[k + 1] == Step(piles[k], ids, shares, steps[k])
  }

  function Counts(held: seq<seq<SegmentId>>): (r: seq<nat>)
    ensures |r| == |held| && forall w :: 0 <= w < |r| ==> r[w] == |held[w]|
  {
    seq(|held|, w requires 0 <= w < |held| => |held[w]|)
  }

  function Join(held: seq<seq<SegmentId>>): multiset<SegmentId> {
    if held == [] then multiset{} else Join(held[..|held| - 1]) + multiset(held[|held| - 1])
  }

  /** Shares that give out everything, none of them empty unless there is nothing to give. */
  ghost predicate FairShares(shares: seq<nat>, n: nat) {
    Sum(shares) == n && (0 < n ==> forall w :: 0 <= w < |shares| ==> 0 < shares[w])
  }

  /** Nobody holds more than its share, and who is done has all of it. */
  ghost predicate WithinShare(held: nat, share: nat, done: bool, n: nat) {
    held <= share && (done ==> held == share) && (!done && 0 < n ==> held < share)
  }

  /** What is held and what is left is each segment once. */
  ghost predicate Accounted(p: Pile, ids: seq<SegmentId>) {
    && p.remaining <= |ids|
    && Sum(Counts(p.held)) + p.remaining == |ids|
    && Join(p.held) == multiset(ids[p.remaining..])
  }

  ghost predicate Good(p: Pile, ids: seq<SegmentId>, shares: seq<nat>) {
    && |p.held| == |p.done| == |shares|
    && (forall w :: 0 <= w < |shares| ==> WithinShare(|p.held[w]|, shares[w], p.done[w], |ids|))
    && Accounted(p, ids)
  }

  lemma {:induction false} SumUpdate(s: seq<nat>, i: nat, v: nat)
    requires i < |s|
    ensures Sum(s[i := v]) + s[i] == Sum(s) + v
  {
    var last := |s| - 1;
    if i == last {
      assert s[i := v][..last] == s[..last];
    } else {
      assert s[i := v][..last] == s[..last][i := v];
      SumUpdate(s[..last], i, v);
    }
  }

  lemma {:induction false} SumBounds(a: seq<nat>, b: seq<nat>)
    requires |a| == |b| && forall i :: 0 <= i < |a| ==> a[i] <= b[i]
    ensures Sum(a) <= Sum(b)
    ensures (exists i :: 0 <= i < |a| && a[i] < b[i]) ==> Sum(a) < Sum(b)
  {
    if a != [] {
      var last := |a| - 1;
      SumBounds(a[..last], b[..last]);
      if i :| 0 <= i < |a| && a[i] < b[i] {
        if i < last {
          assert a[..last][i] < b[..last][i];
        }
      }
    }
  }

  lemma {:induction false} JoinUpdate(held: seq<seq<SegmentId>>, w: nat, id: SegmentId)
    requires w < |held|
    ensures Join(held[w := held[w] + [id]]) == Join(held) + multiset{id}
  {
    var last := |held| - 1;
    if w == last {
      assert held[w := held[w] + [id]][..last] == held[..last];
    } else {
      assert held[w := held[w] + [id]][..last] == held[..last][w := held[..last][w] + [id]];
      JoinUpdate(held[..last], w, id);
    }
  }

  lemma {:induction false} NothingHeld(m: nat)
    ensures Sum(Counts(Nothing(m))) == 0
    ensures Join(Nothing(m)) == multiset{}
  {
    if 0 < m {
      NothingHeld(m - 1);
      assert Counts(Nothing(m))[..m - 1] == Counts(Nothing(m - 1));
      assert Nothing(m)[..m - 1] == Nothing(m - 1);
    }
  }

  /** Whoever still lacks a segment finds one. */
  lemma SegmentIsLeft(p: Pile, ids: seq<SegmentId>, shares: seq<nat>, w: nat)
    requires Good(p, ids, shares) && FairShares(shares, |ids|)
    requires w < |shares| && |p.held[w]| < shares[w]
    ensures 0 < p.remaining
  {
    forall v | 0 <= v < |shares|
      ensures Counts(p.held)[v] <= shares[v]
    {
      assert WithinShare(|p.held[v]|, shares[v], p.done[v], |ids|);
    }
    assert Counts(p.held)[w] < shares[w];
    SumBounds(Counts(p.held), shares);
  }

  lemma FreshIsGood(ids: seq<SegmentId>, shares: seq<nat>)
    requires FairShares(shares, |ids|)
    ensures Good(Fresh(ids, |shares|), ids, shares)
  {
    NothingHeld(|shares|);
    assert ids[|ids|..] == [];
  }

  lemma TailGrows(ids: seq<SegmentId>, r: nat)
    requires 0 < r <= |ids|
    ensures multiset(ids[r - 1..]) == multiset(ids[r..]) + multiset{ids[r - 1]}
  {
    assert ids[r - 1..] == [ids[r - 1]] + ids[r..];
  }

  lemma TakingIsAccounted(p: Pile, ids: seq<SegmentId>, shares: seq<nat>, w: nat)
    requires Accounted(p, ids) && CanStep(p, shares, w) && 0 < p.remaining
    ensures Accounted(Step(p, ids, shares, w), ids)
  {
    var id := ids[p.remaining - 1];
    var held := p.held[w := p.held[w] + [id]];
    JoinUpdate(p.held, w, id);
    TailGrows(ids, p.remaining);
    SumUpdate(Counts(p.held), w, |p.held[w]| + 1);
    assert Counts(held) == Counts(p.held)[w := |p.held[w]| + 1];
    assert Step(p, ids, shares, w).held == held;
  }

  lemma StepKeepsGood(p: Pile, ids: seq<SegmentId>, shares: seq<nat>, w: nat)
    requires Good(p, ids, shares) && FairShares(shares, |ids|) && CanStep(p, shares, w)
    ensures Good(Step(p, ids, shares, w), ids, shares)
    ensures ids != [] ==> Step(p, ids, shares, w).remaining == p.remaining - 1
    ensures Step(p, ids, shares, w).done[w] <==> |Step(p, ids, shares, w).held[w]| == shares[w]
    ensures forall v :: 0 <= v < |shares| && v != w ==>
              Step(p, ids, shares, w).held[v] == p.held[v] && Step(p, ids, shares, w).done[v] == p.done[v]
  {
    assert WithinShare(|p.held[w]|, shares[w], p.done[w], |ids|);
    if ids != [] {
      SegmentIsLeft(p, ids, shares, w);
      TakingIsAccounted(p, ids, shares, w);
    } else {
      forall v | 0 <= v < |shares|
        ensures Counts(p.held)[v] <= shares[v]
      {
        assert WithinShare(|p.held[v]|, shares[v], p.done[v], |ids|);
      }
      SumBounds(Counts(p.held), shares);
      assert Counts(p.held)[w] <= shares[w];
    }
  }

  /** Every state of every run is good, and every step of it takes a segment if there are any. */
  lemma {:induction false} AlwaysGood(piles: seq<Pile>, steps: seq<nat>, ids: seq<SegmentId>, shares: seq<nat>, k: nat)
    requires IsRun(piles, steps, ids, shares) && FairShares(shares, |ids|) && k < |piles|
    ensures Good(piles[k], ids, shares)
    ensures piles[k].remaining == Sum(shares) - Sum(Counts(piles[k].held))
    ensures ids != [] ==> piles[k].remaining + k == |ids|
  {
    if k == 0 {
      FreshIsGood(ids, shares);
    } else {
      AlwaysGood(piles, steps, ids, shares, k - 1);
      StepKeepsGood(piles[k - 1], ids, shares, steps[k - 1]);
    }
  }

  lemma ChunksAreFair(n: nat, m: nat)
    requires 0 < m && (m <= n || n == 0)
    ensures FairShares(Lengths(n, m, m), n)
  {
    LengthsAddUp(n, m, m);
    ChunksTile(n, m, 0);
    NoChunkIsEmpty(n, m);
  }

  /** In whatever order the participants take segments: when all are done, each has exactly its share,
      and together they have every segment exactly as often as the index does. */
  lemma EverySegmentIsAggregatedOnce(piles: seq<Pile>, steps: seq<nat>, ids: seq<SegmentId>, m: nat)
    requires 0 < m && (m <= |ids| || ids == [])
    requires IsRun(piles, steps, ids, Lengths(|ids|, m, m))
    requires forall w :: 0 <= w < |piles[|steps|].done| ==> piles[|steps|].done[w]
    ensures Counts(piles[|steps|].held) == Lengths(|ids|, m, m)
    ensures piles[|steps|].remaining == 0
    ensures Join(piles[|steps|].held) == multiset(ids)
    ensures ids != [] ==> |steps| == |ids|
  {
    var shares := Lengths(|ids|, m, m);
    var p := piles[|steps|];
    ChunksAreFair(|ids|, m);
    AlwaysGood(piles, steps, ids, shares, |steps|);
    forall w | 0 <= w < |shares|
      ensures Counts(p.held)[w] == shares[w]
    {
      assert WithinShare(|p.held[w]|, shares[w], p.done[w], |ids|);
    }
    assert Counts(p.held) == shares;
    assert ids[0..] == ids;
  }

  // ---------- One participant on its own ----------

  /** The shared state, as one participant sees it while nobody else takes segments. */
  class AggregateState {
    const ids: seq<SegmentId>
    var remaining: nat

    ghost predicate Valid()
      reads this
    {
      remaining <= |ids|
    }

    constructor (ids: seq<SegmentId>)
      ensures Valid() && this.ids == ids && remaining == |ids|
    {
      this.ids, remaining := ids, |ids|;
    }

    /** Takes the last segment left. */
    method CheckoutSegment() returns (r: Option<SegmentId>)
      requires Valid()
      modifies this
      ensures Valid()
      ensures r == if old(remaining) == 0 then None else Some(ids[old(remaining) - 1])
      ensures remaining == if old(remaining) == 0 then 0 else old(remaining) - 1
    {
      if remaining == 0 {
        return None;
      }
      remaining := remaining - 1;
      return Some(ids[remaining]);
    }

    /** Takes segments until it has its share. A share of nothing is never met, so it takes all. */
    method CheckoutSegments(m: nat, number: nat) returns (held: seq<SegmentId>)
      requires Valid() && 0 < m
      modifies this
      ensures Valid()
      ensures var share := ChunkLength(|ids|, m, number);
              |held| == if share == 0 then old(remaining) else Min(share, old(remaining))
      ensures remaining == old(remaining) - |held|
      ensures forall k :: 0 <= k < |held| ==> held[k] == ids[old(remaining) - 1 - k]
    {
      var (_, share) := ChunkRange(|ids|, m, number);
      held := [];
      var id := CheckoutSegment();
      while id.Some?
        invariant Valid()
        invariant id.Some? ==> remaining + |held| + 1 == old(remaining) && id.value == ids[remaining]
        invariant id == None ==> remaining == 0 && |held| == old(remaining)
        invariant share == 0 || |held| < share
        invariant forall k :: 0 <= k < |held| ==> held[k] == ids[old(remaining) - 1 - k]
        decreases old(remaining) - |held|
      {
        held := held + [id.value];
        if |held| == share {
          break;
        }
        id := CheckoutSegment();
      }
    }
  }
}
