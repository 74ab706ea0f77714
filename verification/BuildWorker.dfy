/** A worker of an index build: it writes segments as its memory fills up and merges them on the way,
    aiming at the number of segments it was given. */
module BuildWorker {
  import opened Options
  import opened WorkDivision

  datatype Meta = Meta(id: nat, maxDoc: nat)

  const USIZE_MAX := 0xFFFF_FFFF_FFFF_FFFF

  /** How many segments the worker expects to write: its part of the rows, `docs` rows to a segment,
      rounded up. The conversion from floating point saturates, and turns zero by zero into zero. */
  function Estimate(rows: nat, nlaunched: nat, docs: nat): nat
    requires 0 < nlaunched
  {
    if rows == 0 then 0
    else if docs == 0 then USIZE_MAX
    else
      var part := rows as real / nlaunched as real / docs as real;
      Min(USIZE_MAX, -((-part).Floor))
  }

  lemma ScaleUp(a: real, b: real, c: real)
    requires 0.0 < c
    ensures a <= b ==> a * c <= b * c
    ensures a < b ==> a * c < b * c
  {
  }

  lemma ProductOf(a: int, b: int, c: int)
    ensures (a * b * c) as real == a as real * b as real * c as real
  {
    assert (a * b) as real == a as real * b as real;
  }

  /** Bounds on a quotient, multiplied out. */
  lemma QuotientBounds(rows: int, l: int, d: int, n: int)
    requires 0 < l && 0 < d && (n - 1) as real < rows as real / l as real / d as real <= n as real
    ensures (n - 1) * d * l < rows <= n * d * l
  {
    var share := rows as real / l as real;
    var part := share / d as real;
    assert part * d as real == share && share * l as real == rows as real;
    ScaleUp((n - 1) as real, part, d as real);
    ScaleUp(part, n as real, d as real);
    ScaleUp((n - 1) as real * d as real, share, l as real);
    ScaleUp(share, n as real * d as real, l as real);
    ProductOf(n - 1, d, l);
    ProductOf(n, d, l);
  }

  /** The estimate is the least number of segments of `docs` rows that hold the worker's part, if that
      fits 64 bits. */
  lemma EstimateIsLeast(rows: nat, nlaunched: nat, docs: nat)
    requires 0 < nlaunched
    ensures var n := Estimate(rows, nlaunched, docs);
            && n <= 18_446_744_073_709_551_615
            && (rows == 0 ==> n == 0)
            && (0 < rows && docs == 0 ==> n == 18_446_744_073_709_551_615)
            && (0 < rows && 0 < docs ==>
                  && (n - 1) * docs * nlaunched < rows
                  && (n < 18_446_744_073_709_551_615 ==> rows <= n * docs * nlaunched))
  {
    if 0 < rows && 0 < docs {
      var all := -((-(rows as real / nlaunched as real / docs as real)).Floor);
      QuotientBounds(rows, nlaunched, docs, all);
      Scaled(Estimate(rows, nlaunched, docs) - 1, all - 1, docs, nlaunched);
    }
  }

  lemma Scaled(a: int, b: int, c: nat, d: nat)
    requires a <= b
    ensures a * c * d <= b * c * d
  {
    assert (b - a) * c >= 0;
    assert (b * c - a * c) * d >= 0;
  }

  // ---------- Sorting ----------

  function InsertByDocs(s: seq<Meta>, x: Meta): seq<Meta> {
    if s != [] && x.maxDoc < s[|s| - 1].maxDoc then InsertByDocs(s[..|s| - 1], x) + [s[|s| - 1]] else s + [x]
  }

  /** The stable sort by document count. */
  function SortedByDocs(s: seq<Meta>): seq<Meta> {
    if s == [] then [] else InsertByDocs(SortedByDocs(s[..|s| - 1]), s[|s| - 1])
  }

  ghost predicate Ascending(s: seq<Meta>) {
    forall i, j :: 0 <= i < j < |s| ==> s[i].maxDoc <= s[j].maxDoc
  }

  lemma {:induction false} InsertByDocsKeeps(s: seq<Meta>, x: Meta)
    ensures multiset(InsertByDocs(s, x)) == multiset(s) + multiset{x}
  {
    if s != [] && x.maxDoc < s[|s| - 1].maxDoc {
      assert s == s[..|s| - 1] + [s[|s| - 1]];
      InsertByDocsKeeps(s[..|s| - 1], x);
    }
  }

  lemma {:induction false} InsertByDocsFacts(s: seq<Meta>, x: Meta)
    requires Ascending(s)
    ensures Ascending(InsertByDocs(s, x))
    ensures forall i :: 0 <= i < |InsertByDocs(s, x)| ==> InsertByDocs(s, x)[i] in s || InsertByDocs(s, x)[i] == x
  {
    if s != [] && x.maxDoc < s[|s| - 1].maxDoc {
      InsertByDocsFacts(s[..|s| - 1], x);
    }
  }

  lemma {:induction false} SortedByDocsFacts(s: seq<Meta>)
    ensures Ascending(SortedByDocs(s)) && multiset(SortedByDocs(s)) == multiset(s)
    ensures |SortedByDocs(s)| == |s|
  {
    if s != [] {
      SortedByDocsFacts(s[..|s| - 1]);
      InsertByDocsFacts(SortedByDocs(s[..|s| - 1]), s[|s| - 1]);
      InsertByDocsKeeps(SortedByDocs(s[..|s| - 1]), s[|s| - 1]);
      assert s == s[..|s| - 1] + [s[|s| - 1]];
    }
    assert |multiset(SortedByDocs(s))| == |multiset(s)|;
  }

  /** The segments with so many documents, in order. */
  function OfSize(s: seq<Meta>, docs: nat): seq<Meta> {
    if s == [] then []
    else OfSize(s[..|s| - 1], docs) + if s[|s| - 1].maxDoc == docs then [s[|s| - 1]] else []
  }

  lemma OfSizeAppend(s: seq<Meta>, x: Meta, docs: nat)
    ensures OfSize(s + [x], docs) == OfSize(s, docs) + if x.maxDoc == docs then [x] else []
  {
    assert (s + [x])[..|s|] == s;
  }

  lemma {:induction false} InsertByDocsIsStable(s: seq<Meta>, x: Meta, docs: nat)
    ensures OfSize(InsertByDocs(s, x), docs) == OfSize(s, docs) + if x.maxDoc == docs then [x] else []
  {
    if s != [] && x.maxDoc < s[|s| - 1].maxDoc {
      InsertByDocsIsStable(s[..|s| - 1], x, docs);
      OfSizeAppend(InsertByDocs(s[..|s| - 1], x), s[|s| - 1], docs);
    } else {
      OfSizeAppend(s, x, docs);
    }
  }

  /** Segments with as many documents stay in order. */
  lemma {:induction false} SortedByDocsIsStable(s: seq<Meta>, docs: nat)
    ensures OfSize(SortedByDocs(s), docs) == OfSize(s, docs)
  {
    if s != [] {
      var front, last := s[..|s| - 1], s[|s| - 1];
      assert s == front + [last];
      SortedByDocsIsStable(front, docs);
      InsertByDocsIsStable(SortedByDocs(front), last, docs);
    }
  }

  // ---------- The plan ----------

  /** How many segments merge number `k` takes, if `n` segments are expected: the chunks counted from
      the back, starting one past the last. */
  function PlannedSize(n: nat, target: nat, k: nat): nat
    requires k < target
  {
    ChunkLength(n, target, target - k)
  }

  function Planned(n: nat, target: nat, k: nat): nat
    requires k <= target
  {
    if k == 0 then 0 else Planned(n, target, k - 1) + PlannedSize(n, target, k - 1)
  }

  /** Later merges are meant to be no smaller. */
  lemma PlannedSizesGrow(n: nat, target: nat, k: nat, l: nat)
    requires k <= l < target
    ensures PlannedSize(n, target, k) <= PlannedSize(n, target, l) <= PlannedSize(n, target, k) + 1
  {
    ChunksAreEven(n, target, target - l, target - k);
  }

  lemma {:induction false} PlannedTotal(n: nat, target: nat, k: nat)
    requires 0 < k <= target
    ensures Planned(n, target, k) == n / target + n - ChunkStart(n, target, target - k + 1)
  {
    if k == 1 {
      ChunksTile(n, target, target);
    } else {
      PlannedTotal(n, target, k - 1);
      ChunksTile(n, target, target - k + 1);
    }
  }

  /** What is left for the last merge: because the plan starts one past the last chunk, this is two
      more than a chunk when two or more chunks are long. */
  lemma LeftForTheLast(n: nat, target: nat)
    requires 0 < target
    ensures Planned(n, target, target - 1) <= n
    ensures n - Planned(n, target, target - 1) ==
            if target == 1 then n else n / target + Min(2, n % target)
  {
    if 1 < target {
      PlannedTotal(n, target, target - 1);
      assert ChunkStart(n, target, 2) == 2 * (n / target) + Min(2, n % target);
    }
  }

  lemma {:induction false} PlannedIncreases(n: nat, target: nat, k: nat, l: nat)
    requires k <= l <= target
    ensures Planned(n, target, k) <= Planned(n, target, l)
    decreases l
  {
    if k < l {
      PlannedIncreases(n, target, k, l - 1);
    }
  }

  /** The same in closed form: a chunk for each merge, and one more for each long chunk among them. */
  lemma {:induction false} PlannedClosed(n: nat, target: nat, k: nat)
    requires k <= target && 0 < target
    ensures Planned(n, target, k) == k * (n / target) + AtLeastZero(k - 1 - target + n % target)
  {
    if 0 < k {
      PlannedClosed(n, target, k - 1);
      assert k * (n / target) == (k - 1) * (n / target) + n / target;
    }
  }

  function AtLeastZero(x: int): nat {
    if x < 0 then 0 else x
  }

  // ---------- How many segments a scan leaves ----------

  /** The most merges, `k` at most, whose planned sizes `w` segments fill. */
  function FilledMerges(n: nat, target: nat, w: nat, k: nat): nat
    requires k < target
  {
    if k == 0 || Planned(n, target, k) <= w then k else FilledMerges(n, target, w, k - 1)
  }

  /** The merges done while `w` segments are written. With one segment or none to a chunk there is
      nothing to merge, and one merge is always kept for the end. */
  function MergesDone(n: nat, target: nat, w: nat): nat
    requires 0 < target
  {
    if n / target <= 1 then 0 else FilledMerges(n, target, w, target - 1)
  }

  lemma {:induction false} FilledMergesIs(n: nat, target: nat, w: nat, k: nat, top: nat)
    requires k <= top < target && Planned(n, target, k) <= w && (k < top ==> w < Planned(n, target, k + 1))
    ensures FilledMerges(n, target, w, top) == k
    decreases top
  {
    if k < top {
      PlannedIncreases(n, target, k + 1, top);
      FilledMergesIs(n, target, w, k, top - 1);
    }
  }

  /** It is the one number of merges that are all filled while the next, other than the last, is not. */
  lemma MergesDoneIs(n: nat, target: nat, w: nat, k: nat)
    requires 0 < target && 1 < n / target && k < target
    ensures k == MergesDone(n, target, w) <==>
            Planned(n, target, k) <= w && (k < target - 1 ==> w < Planned(n, target, k + 1))
  {
    if Planned(n, target, k) <= w && (k < target - 1 ==> w < Planned(n, target, k + 1)) {
      FilledMergesIs(n, target, w, k, target - 1);
    } else if k == FilledMerges(n, target, w, target - 1) {
      FilledMergesFacts(n, target, w, target - 1);
      assert false;
    }
  }

  lemma {:induction false} FilledMergesFacts(n: nat, target: nat, w: nat, top: nat)
    requires top < target
    ensures var k := FilledMerges(n, target, w, top);
            k <= top && Planned(n, target, k) <= w && (k < top ==> w < Planned(n, target, k + 1))
  {
    if w < Planned(n, target, top) {
      FilledMergesFacts(n, target, w, top - 1);
    }
  }

  /** How many segments are there when `w` have been written and `n` were expected. */
  function SegmentsLeft(n: nat, target: nat, w: nat): nat
    requires 0 < target
  {
    FilledMergesFacts(n, target, w, target - 1);
    MergesDone(n, target, w) + (w - Planned(n, target, MergesDone(n, target, w)))
  }

  // ---------- The worker ----------

  function Flat(groups: seq<seq<Meta>>): multiset<Meta> {
    if groups == [] then multiset{} else Flat(groups[..|groups| - 1]) + multiset(groups[|groups| - 1])
  }

  lemma FlatAppend(groups: seq<seq<Meta>>, g: seq<Meta>)
    ensures Flat(groups + [g]) == Flat(groups) + multiset(g)
  {
    assert (groups + [g])[..|groups|] == groups;
  }

  /** The merges done so far follow the plan for `n` expected segments. */
  ghost predicate FollowsPlan(merged: seq<seq<Meta>>, n: nat, target: nat) {
    && |merged| < target
    && (merged != [] ==> 1 < n / target)
    && forall k :: 0 <= k < |merged| ==> |merged[k]| == PlannedSize(n, target, k)
  }

  function Concat(groups: seq<seq<Meta>>): seq<Meta> {
    if groups == [] then [] else Concat(groups[..|groups| - 1]) + groups[|groups| - 1]
  }

  lemma ConcatAppend(groups: seq<seq<Meta>>, g: seq<Meta>)
    ensures Concat(groups + [g]) == Concat(groups) + g
  {
    assert (groups + [g])[..|groups|] == groups;
  }

  predicate IsSorted(group: seq<Meta>, stretch: seq<Meta>) {
    group == SortedByDocs(stretch)
  }

  /** Every merge takes a stretch of the segments written, and sorts it. */
  ghost predicate AllSorted(merged: seq<seq<Meta>>, stretches: seq<seq<Meta>>) {
    && |merged| == |stretches|
    && forall k {:trigger IsSorted(merged[k], stretches[k])} :: 0 <= k < |merged| ==> IsSorted(merged[k], stretches[k])
  }

  lemma {:induction false} MergedSoFar(merged: seq<seq<Meta>>, n: nat, target: nat)
    requires FollowsPlan(merged, n, target)
    ensures |Flat(merged)| == Planned(n, target, |merged|)
  {
    if merged != [] {
      MergedSoFar(merged[..|merged| - 1], n, target);
    }
  }

  /** No merge that could be done is put off: what is not merged is less than the next merge takes,
      unless only the last merge remains or the plan has nothing to merge. */
  ghost predicate Eager(unmerged: nat, nmerges: nat, n: nat, target: nat)
    requires nmerges < target
  {
    nmerges < target - 1 && 1 < PlannedSize(n, target, nmerges) ==> unmerged < PlannedSize(n, target, nmerges)
  }

  /** A group of segments taken from the front of others when these are sorted. */
  ghost predicate SmallestMerged(group: seq<Meta>, rest: seq<Meta>, others: seq<Meta>) {
    IsSorted(group + rest, others)
  }

  /** None of them is larger than any of the rest, and none is lost. */
  lemma SmallestMergedFacts(group: seq<Meta>, rest: seq<Meta>, others: seq<Meta>)
    requires SmallestMerged(group, rest, others)
    ensures forall a, b :: a in group && b in rest ==> a.maxDoc <= b.maxDoc
    ensures Ascending(group) && multiset(group) + multiset(rest) == multiset(others)
  {
    var sorted := group + rest;
    SortedByDocsFacts(others);
    forall a, b | a in group && b in rest
      ensures a.maxDoc <= b.maxDoc
    {
      var i :| 0 <= i < |group| && group[i] == a;
      var j :| 0 <= j < |rest| && rest[j] == b;
      assert sorted[i] == a && sorted[|group| + j] == b;
    }
    forall i, j | 0 <= i < j < |group|
      ensures group[i].maxDoc <= group[j].maxDoc
    {
      assert sorted[i] == group[i] && sorted[j] == group[j];
    }
  }

  /** While rows are being scanned, and `n` segments are expected. */
  ghost predicate OnPlan(merged: seq<seq<Meta>>, stretches: seq<seq<Meta>>, unmerged: seq<Meta>, written: seq<Meta>,
                         n: nat, target: nat)
  {
    && FollowsPlan(merged, n, target) && Eager(|unmerged|, |merged|, n, target)
    && AllSorted(merged, stretches) && written == Concat(stretches) + unmerged
  }

  /** What the commit leaves of what the scan left. */
  ghost predicate AfterCommit(before: seq<seq<Meta>>, pending: seq<Meta>, merged: seq<seq<Meta>>, unmerged: seq<Meta>,
                              last: Option<Meta>, target: nat)
  {
    && |before| <= |merged| <= |before| + 1 && merged[..|before|] == before
    && (|merged| == |before| ==> unmerged == pending + if last.Some? then [last.value] else [])
    && (|merged| == |before| + 1 <==> last.Some? && target <= |before| + |pending|)
    && (|merged| == |before| + 1 ==> SmallestMerged(merged[|before|], unmerged, pending + [last.value]))
  }

  lemma AllSortedMore(merged: seq<seq<Meta>>, stretches: seq<seq<Meta>>, group: seq<Meta>, stretch: seq<Meta>)
    requires AllSorted(merged, stretches) && IsSorted(group, stretch)
    ensures AllSorted(merged + [group], stretches + [stretch])
  {
  }

  lemma FollowsPlanMore(merged: seq<seq<Meta>>, group: seq<Meta>, n: nat, target: nat)
    requires FollowsPlan(merged, n, target) && |merged| + 1 < target
    requires 1 < |group| == PlannedSize(n, target, |merged|)
    ensures FollowsPlan(merged + [group], n, target) && Eager(0, |merged| + 1, n, target)
  {
    PlannedSizesGrow(n, target, |merged|, |merged| + 1);
  }

  lemma PlanGoesOn(merged: seq<seq<Meta>>, stretches: seq<seq<Meta>>, unmerged: seq<Meta>, written: seq<Meta>,
                   n: nat, target: nat)
    requires FollowsPlan(merged, n, target) && AllSorted(merged, stretches) && |merged| + 1 < target
    requires 1 < |unmerged| == PlannedSize(n, target, |merged|) && written == Concat(stretches) + unmerged
    ensures OnPlan(merged + [SortedByDocs(unmerged)], stretches + [unmerged], [], written, n, target)
  {
    SortedByDocsFacts(unmerged);
    ConcatAppend(stretches, unmerged);
    AllSortedMore(merged, stretches, SortedByDocs(unmerged), unmerged);
    FollowsPlanMore(merged, SortedByDocs(unmerged), n, target);
  }

  class WorkerBuildState {
    const target: nat
    const rows: nat
    const nlaunched: nat
    var estimated: Option<nat>
    var nmerges: nat
    var unmerged: seq<Meta>
    // the segments made by merging, each as the segments that went into it
    var merged: seq<seq<Meta>>
    // the segments that went into each of them as they were written, and all segments written
    ghost var stretches: seq<seq<Meta>>
    ghost var written: seq<Meta>

    /** While rows are being scanned. */
    ghost predicate Valid()
      reads this
    {
      && 0 < target && 0 < nlaunched
      && nmerges == |merged| < target
      && match estimated
         case None => merged == [] && stretches == [] && unmerged == written == []
         case Some(n) => OnPlan(merged, stretches, unmerged, written, n, target)
    }

    /** Everything written, merged or not. */
    ghost function Written(): multiset<Meta>
      reads this
    {
      Flat(merged) + multiset(unmerged)
    }

    /** How many segments the index gets from this worker, as things stand. */
    function Segments(): nat
      reads this
    {
      |merged| + |unmerged|
    }

    constructor (target: nat, rows: nat, nlaunched: nat)
      requires 0 < target && 0 < nlaunched
      ensures Valid() && Written() == multiset{} && Segments() == 0 && estimated == None && written == []
      ensures this.target == target && this.rows == rows && this.nlaunched == nlaunched
    {
      this.target, this.rows, this.nlaunched := target, rows, nlaunched;
      estimated, nmerges, unmerged, merged, stretches, written := None, 0, [], [], [], [];
    }

    /** The first estimate is kept. */
    method EstimatedSegments(docs: nat) returns (n: nat)
      requires 0 < nlaunched
      modifies `estimated
      ensures estimated == Some(n)
      ensures n == if old(estimated).Some? then old(estimated).value else Estimate(rows, nlaunched, docs)
    {
      match estimated {
        case Some(value) =>
          n := value;
        case None =>
          n := Estimate(rows, nlaunched, docs);
          estimated := Some(n);
      }
    }

    /** Merges the `size` smallest unmerged segments into one. */
    method Merge(size: nat)
      requires size <= |unmerged|
      modifies `unmerged, `merged, `nmerges
      ensures |SortedByDocs(old(unmerged))| == |old(unmerged)|
      ensures merged == old(merged) + [SortedByDocs(old(unmerged))[..size]]
      ensures unmerged == SortedByDocs(old(unmerged))[size..]
      ensures forall a, b :: a in merged[|old(merged)|] && b in unmerged ==> a.maxDoc <= b.maxDoc
      ensures Written() == old(Written()) && nmerges == old(nmerges) + 1
    {
      var sorted := SortedByDocs(unmerged);
      SortedByDocsFacts(unmerged);
      assert sorted == sorted[..size] + sorted[size..];
      SmallestMergedFacts(sorted[..size], sorted[size..], unmerged);
      FlatAppend(merged, sorted[..size]);
      unmerged := sorted[size..];
      merged := merged + [sorted[..size]];
      nmerges := nmerges + 1;
    }

    /** Merges what is not merged, a stretch of the segments written. */
    method MergeAll(size: nat)
      requires size == |unmerged|
      modifies `unmerged, `merged, `nmerges, `stretches
      ensures merged == old(merged) + [SortedByDocs(old(unmerged))] && unmerged == []
      ensures stretches == old(stretches) + [old(unmerged)]
      ensures Written() == old(Written()) && nmerges == old(nmerges) + 1
    {
      ghost var all := unmerged;
      stretches := stretches + [all];
      Merge(size);
      assert SortedByDocs(all)[..size] == SortedByDocs(all);
    }

    /** How many segments are to be merged now, if any: as planned, but not the last time. All that is
        not merged is then just enough. */
    method MergeDue(n: nat) returns (due: Option<nat>)
      requires nmerges < target && unmerged != [] && Eager(|unmerged| - 1, nmerges, n, target)
      ensures due.None? ==> Eager(|unmerged|, nmerges, n, target)
      ensures due.Some? ==> nmerges + 1 < target && 1 < due.value == |unmerged| == PlannedSize(n, target, nmerges)
    {
      var (_, size) := ChunkRange(n, target, target - nmerges);
      if size <= 1 || |unmerged| < size {
        return None;
      }
      if nmerges == target - 1 {
        return None;
      }
      return Some(size);
    }

    method TryMerge(n: nat)
      requires nmerges == |merged| < target && 0 < nlaunched && estimated == Some(n) && unmerged != []
      requires AllSorted(merged, stretches) && written == Concat(stretches) + unmerged
      requires FollowsPlan(merged, n, target) && Eager(|unmerged| - 1, nmerges, n, target)
      modifies `unmerged, `merged, `nmerges, `stretches
      ensures Valid() && Written() == old(Written())
      ensures if merged == old(merged) then unmerged == old(unmerged)
              else merged == old(merged) + [SortedByDocs(old(unmerged))] && unmerged == []
    {
      var due := MergeDue(n);
      if due.Some? {
        PlanGoesOn(merged, stretches, unmerged, written, n, target);
        MergeAll(due.value);
      }
    }

    /** A segment was written during the scan. A merge then takes all that is not merged. */
    method SegmentWritten(meta: Meta)
      requires Valid()
      modifies this
      ensures Valid() && Written() == old(Written()) + multiset{meta}
      ensures Segments() <= old(Segments()) + 1 && written == old(written) + [meta]
      ensures estimated == if old(estimated).Some? then old(estimated) else Some(Estimate(rows, nlaunched, meta.maxDoc))
      ensures if merged == old(merged) then unmerged == old(unmerged) + [meta]
              else merged == old(merged) + [SortedByDocs(old(unmerged) + [meta])] && unmerged == []
    {
      unmerged := unmerged + [meta];
      var n := EstimatedSegments(unmerged[0].maxDoc);
      written := written + [meta];
      TryMerge(n);
    }

    /** Merges so many of the smallest segments that the target is kept. */
    method LastMerge()
      requires nmerges == |merged| < target
      modifies `unmerged, `merged, `nmerges
      ensures Written() == old(Written()) && Segments() == Min(target, old(Segments()))
      ensures |old(merged)| <= |merged| <= |old(merged)| + 1 && merged[..|old(merged)|] == old(merged)
      ensures |merged| == |old(merged)| ==> unmerged == old(unmerged)
      ensures |merged| == |old(merged)| + 1 ==> SmallestMerged(merged[|old(merged)|], unmerged, old(unmerged))
      ensures |merged| == |old(merged)| + 1 <==> target < old(Segments())
    {
      var size := nmerges - target + |unmerged| + 1;
      if size <= 1 || |unmerged| < size {
        return;
      }
      Merge(size);
    }

    /** The scan is over; `meta` is the segment of the rows after the last one written, if there are
        any. Only then is there a last merge, which takes the smallest segments. */
    method Commit(meta: Option<Meta>)
      requires nmerges == |merged| < target
      modifies `unmerged, `merged, `nmerges
      ensures Written() == old(Written()) + if meta.Some? then multiset{meta.value} else multiset{}
      ensures Segments() == if meta.Some? then Min(target, old(Segments()) + 1) else old(Segments())
      ensures AfterCommit(old(merged), old(unmerged), merged, unmerged, meta, target)
      ensures |merged| == |old(merged)| + 1 ==>
                forall a, b :: a in merged[|old(merged)|] && b in unmerged ==> a.maxDoc <= b.maxDoc
    {
      if meta.Some? {
        unmerged := unmerged + [meta.value];
        ghost var all := unmerged;
        LastMerge();
        if |merged| == |old(merged)| + 1 {
          SmallestMergedFacts(merged[|old(merged)|], unmerged, all);
        }
      }
    }
  }

  lemma TwoEach(n: nat, target: nat)
    requires 0 < target && 2 * target <= n
    ensures 2 <= n / target
  {
    var q, r := n / target, n % target;
    assert n == target * q + r;
    if q == 0 {
    } else if q == 1 {
    }
  }

  lemma TwoForTheLast(n: nat, target: nat)
    requires 0 < target && 2 * target <= n
    ensures Planned(n, target, target - 1) + 2 <= n
  {
    TwoEach(n, target);
    LeftForTheLast(n, target);
  }

  /** What the worker keeps during the scan fixes how many merges it has done. */
  lemma MergesFollow(merged: seq<seq<Meta>>, unmerged: nat, n: nat, target: nat, w: nat)
    requires FollowsPlan(merged, n, target) && Eager(unmerged, |merged|, n, target)
    requires |Flat(merged)| + unmerged == w
    ensures |merged| == MergesDone(n, target, w) && |merged| + unmerged == SegmentsLeft(n, target, w)
  {
    MergedSoFar(merged, n, target);
    if 1 < n / target {
      assert Planned(n, target, |merged| + 1) == w - unmerged + PlannedSize(n, target, |merged|);
      MergesDoneIs(n, target, w, |merged|);
    }
  }

  lemma AllButTheLast(n: nat, target: nat)
    requires 0 < target && 2 * target <= n
    ensures MergesDone(n, target, n - 1) == target - 1
  {
    TwoEach(n, target);
    TwoForTheLast(n, target);
    MergesDoneIs(n, target, n - 1, target - 1);
  }

  /** If the estimate was right, all merges but the last are done when one segment is missing. */
  lemma OnlyTheLastRemains(merged: seq<seq<Meta>>, unmerged: nat, n: nat, target: nat)
    requires FollowsPlan(merged, n, target) && Eager(unmerged, |merged|, n, target)
    requires |Flat(merged)| + unmerged == n - 1
    requires 2 * target <= n
    ensures |merged| == target - 1
  {
    AllButTheLast(n, target);
    MergesFollow(merged, unmerged, n, target, n - 1);
  }

  /** The last merge then takes what is left. */
  lemma LastMergeTakesTheRest(before: seq<seq<Meta>>, merged: seq<seq<Meta>>, unmerged: seq<Meta>, n: nat, target: nat)
    requires FollowsPlan(before, n, target) && |before| == target - 1
    requires |before| <= |merged| <= target && merged[..|before|] == before
    requires |merged| + |unmerged| == target && |Flat(merged)| + |unmerged| == n
    requires Planned(n, target, target - 1) + 2 <= n
    ensures AsPlanned(merged, n, target) && unmerged == []
  {
    MergedSoFar(before, n, target);
    assert |merged| == |before| ==> merged == before;
    if |merged| == |before| {
      assert false;
    }
    FlatAppend(before, merged[target - 1]);
    assert merged == before + [merged[target - 1]];
  }

  /** The target met exactly by merges of the planned sizes, the last of them taking what is left. */
  ghost predicate AsPlanned(merged: seq<seq<Meta>>, n: nat, target: nat)
    requires 0 < target
  {
    && |merged| == target
    && (forall k :: 0 <= k < target - 1 ==> |merged[k]| == PlannedSize(n, target, k))
    && |merged[target - 1]| == n - Planned(n, target, target - 1)
  }

  /** What a scan leaves. */
  ghost predicate AfterScan(merged: seq<seq<Meta>>, stretches: seq<seq<Meta>>, unmerged: seq<Meta>, written: seq<Meta>,
                            n: nat, target: nat)
  {
    OnPlan(merged, stretches, unmerged, written, n, target) && |Flat(merged)| + |unmerged| == |written|
  }

  lemma CountWritten(merged: seq<seq<Meta>>, unmerged: seq<Meta>, written: seq<Meta>)
    requires Flat(merged) + multiset(unmerged) == multiset(written)
    ensures |Flat(merged)| + |unmerged| == |written|
  {
    assert |Flat(merged) + multiset(unmerged)| == |multiset(written)|;
  }

  method Scan(state: WorkerBuildState, written: seq<Meta>) returns (n: nat)
    requires state.Valid() && state.estimated == None && state.written == []
    modifies state
    ensures state.Written() == multiset(written) && state.nmerges == |state.merged|
    ensures n == if written == [] then 0 else Estimate(state.rows, state.nlaunched, written[0].maxDoc)
    ensures AfterScan(state.merged, state.stretches, state.unmerged, written, n, state.target)
  {
    ghost var expected := if written == [] then 0 else Estimate(state.rows, state.nlaunched, written[0].maxDoc);
    for i := 0 to |written|
      invariant state.Valid() && state.estimated == if i == 0 then None else Some(expected)
      invariant state.Written() == multiset(written[..i]) && state.written == written[..i]
    {
      assert written[..i + 1] == written[..i] + [written[i]];
      state.SegmentWritten(written[i]);
    }
    n := if state.estimated.Some? then state.estimated.value else 0;
    assert written[..|written|] == written;
    CountWritten(state.merged, state.unmerged, written);
  }

  /** How many segments are left by a scan that wrote these. */
  function LeftByScan(target: nat, rows: nat, nlaunched: nat, written: seq<Meta>): nat
    requires 0 < target && 0 < nlaunched
  {
    if written == [] then 0 else SegmentsLeft(Estimate(rows, nlaunched, written[0].maxDoc), target, |written|)
  }

  /** A merged segment has all of a stretch of the segments written, sorted. */
  ghost predicate IsStretch(group: seq<Meta>, written: seq<Meta>, from: nat, to: nat) {
    from <= to <= |written| && IsSorted(group, written[from..to])
  }

  /** Which segments were merged with which: during the scan each planned stretch of the segments
      written, and at the end, if need be, the smallest of what was left and the last one. */
  ghost predicate MergedInStretches(merged: seq<seq<Meta>>, unmerged: seq<Meta>, written: seq<Meta>, last: Option<Meta>,
                                    n: nat, target: nat)
    requires 0 < target
  {
    var done := MergesDone(n, target, |written|);
    && done <= |merged| <= done + 1 && done < target && Planned(n, target, done) <= |written|
    && (forall k :: 0 <= k < done ==> IsStretch(merged[k], written, Planned(n, target, k), Planned(n, target, k + 1)))
    && var left := written[Planned(n, target, done)..] + if last.Some? then [last.value] else [];
       if last.None? || done + |left| <= target then |merged| == done && unmerged == left
       else
         && |merged| == done + 1 && SmallestMerged(merged[done], unmerged, left)
         && forall a, b :: a in merged[done] && b in unmerged ==> a.maxDoc <= b.maxDoc
  }

  /** The stretches, as places in what was written. */
  lemma {:induction false} StretchIs(stretches: seq<seq<Meta>>, rest: seq<Meta>, n: nat, target: nat, k: nat)
    requires |stretches| <= target && forall k :: 0 <= k < |stretches| ==> |stretches[k]| == PlannedSize(n, target, k)
    ensures |Concat(stretches)| == Planned(n, target, |stretches|)
    ensures k < |stretches| ==>
              && Planned(n, target, k) <= Planned(n, target, k + 1) <= |Concat(stretches) + rest|
              && (Concat(stretches) + rest)[Planned(n, target, k)..Planned(n, target, k + 1)] == stretches[k]
  {
    if stretches != [] {
      var m := |stretches| - 1;
      var front, last := stretches[..m], stretches[m];
      StretchIs(front, last + rest, n, target, k);
      assert Concat(stretches) + rest == Concat(front) + (last + rest);
      if k == m {
        assert (Concat(front) + (last + rest))[|Concat(front)|..|Concat(front)| + |last|] == last;
      }
    }
  }

  lemma StretchSizes(merged: seq<seq<Meta>>, stretches: seq<seq<Meta>>, k: nat)
    requires AllSorted(merged, stretches) && k < |merged|
    ensures IsSorted(merged[k], stretches[k]) && |stretches[k]| == |merged[k]|
  {
    SortedByDocsFacts(stretches[k]);
  }

  /** Every merge so far took a planned stretch. */
  lemma InStretches(merged: seq<seq<Meta>>, stretches: seq<seq<Meta>>, unmerged: seq<Meta>, written: seq<Meta>,
                    n: nat, target: nat)
    requires OnPlan(merged, stretches, unmerged, written, n, target)
    ensures forall k :: 0 <= k < |merged| ==> IsStretch(merged[k], written, Planned(n, target, k), Planned(n, target, k + 1))
    ensures Planned(n, target, |merged|) <= |written| && unmerged == written[Planned(n, target, |merged|)..]
  {
    forall k | 0 <= k < |stretches|
      ensures |stretches[k]| == PlannedSize(n, target, k)
    {
      StretchSizes(merged, stretches, k);
    }
    StretchIs(stretches, unmerged, n, target, 0);
    forall k | 0 <= k < |merged|
      ensures IsStretch(merged[k], written, Planned(n, target, k), Planned(n, target, k + 1))
    {
      StretchSizes(merged, stretches, k);
      StretchIs(stretches, unmerged, n, target, k);
    }
  }

  lemma StretchesAtTheEnd(before: seq<seq<Meta>>, stretches: seq<seq<Meta>>, pending: seq<Meta>,
                          merged: seq<seq<Meta>>, unmerged: seq<Meta>,
                          written: seq<Meta>, last: Option<Meta>, n: nat, target: nat)
    requires AfterScan(before, stretches, pending, written, n, target) && AfterCommit(before, pending, merged, unmerged, last, target)
    ensures |before| + |pending| == SegmentsLeft(n, target, |written|)
    ensures MergedInStretches(merged, unmerged, written, last, n, target)
  {
    MergesFollow(before, |pending|, n, target, |written|);
    InStretches(before, stretches, pending, written, n, target);
    if |merged| == |before| + 1 {
      SmallestMergedFacts(merged[|before|], unmerged, pending + [last.value]);
    }
    assert forall k :: 0 <= k < |before| ==> merged[k] == before[k];
  }

  lemma GoesAsPlanned(before: seq<seq<Meta>>, stretches: seq<seq<Meta>>, pending: seq<Meta>,
                      merged: seq<seq<Meta>>, unmerged: seq<Meta>,
                      written: seq<Meta>, last: Option<Meta>, n: nat, target: nat)
    requires AfterScan(before, stretches, pending, written, n, target) && AfterCommit(before, pending, merged, unmerged, last, target)
    requires last.Some? && n == |written| + 1 && 2 * target <= n
    requires |merged| + |unmerged| == Min(target, |before| + |pending| + 1)
    requires Flat(merged) + multiset(unmerged) == multiset(written) + multiset{last.value}
    ensures AsPlanned(merged, n, target) && unmerged == []
  {
    assert |Flat(merged)| + |unmerged| == |multiset(written) + multiset{last.value}| == n;
    OnlyTheLastRemains(before, |pending|, n, target);
    TwoForTheLast(n, target);
    LastMergeTakesTheRest(before, merged, unmerged, n, target);
  }

  /** What a build leaves, if `n` segments were expected. */
  ghost predicate Built(merged: seq<seq<Meta>>, unmerged: seq<Meta>, written: seq<Meta>, last: Option<Meta>,
                        n: nat, target: nat)
    requires 0 < target
  {
    && Flat(merged) + multiset(unmerged) == multiset(written) + (if last.Some? then multiset{last.value} else multiset{})
    && |merged| + |unmerged| ==
       (var left := SegmentsLeft(n, target, |written|); if last.Some? then Min(target, left + 1) else left)
    && (last.None? ==> |merged| < target)
    && MergedInStretches(merged, unmerged, written, last, n, target)
    && (last.Some? && n == |written| + 1 && 2 * target <= n ==> AsPlanned(merged, n, target) && unmerged == [])
  }

  lemma BuildGoesOn(before: seq<seq<Meta>>, stretches: seq<seq<Meta>>, pending: seq<Meta>,
                    merged: seq<seq<Meta>>, unmerged: seq<Meta>,
                    written: seq<Meta>, last: Option<Meta>, n: nat, target: nat)
    requires AfterScan(before, stretches, pending, written, n, target) && AfterCommit(before, pending, merged, unmerged, last, target)
    requires Flat(merged) + multiset(unmerged) ==
             multiset(written) + if last.Some? then multiset{last.value} else multiset{}
    requires |merged| + |unmerged| ==
             if last.Some? then Min(target, |before| + |pending| + 1) else |before| + |pending|
    ensures Built(merged, unmerged, written, last, n, target)
  {
    StretchesAtTheEnd(before, stretches, pending, merged, unmerged, written, last, n, target);
    if last.Some? && n == |written| + 1 && 2 * target <= n {
      GoesAsPlanned(before, stretches, pending, merged, unmerged, written, last, n, target);
    }
  }

  /** A scan and a commit. `n` is the number of segments expected, if there is a first one to tell. */
  method ScanAndCommit(target: nat, rows: nat, nlaunched: nat, written: seq<Meta>, last: Option<Meta>)
    returns (merged: seq<seq<Meta>>, unmerged: seq<Meta>, n: nat)
    requires 0 < target && 0 < nlaunched
    ensures n == if written == [] then 0 else Estimate(rows, nlaunched, written[0].maxDoc)
    ensures Built(merged, unmerged, written, last, n, target)
  {
    var state := new WorkerBuildState(target, rows, nlaunched);
    n := Scan(state, written);
    ghost var before, stretches, pending := state.merged, state.stretches, state.unmerged;
    state.Commit(last);
    merged, unmerged := state.merged, state.unmerged;
    BuildGoesOn(before, stretches, pending, merged, unmerged, written, last, n, target);
  }

  /** The whole build of one worker, and exactly how many segments it makes. With a last segment the
      target is never exceeded. If moreover the estimate was right and gives every merge something to
      do, the build goes as planned. */
  method Build(target: nat, rows: nat, nlaunched: nat, written: seq<Meta>, last: Option<Meta>)
    returns (merged: seq<seq<Meta>>, unmerged: seq<Meta>)
    requires 0 < target && 0 < nlaunched
    ensures Flat(merged) + multiset(unmerged) ==
            multiset(written) + if last.Some? then multiset{last.value} else multiset{}
    ensures |merged| + |unmerged| ==
            var left := LeftByScan(target, rows, nlaunched, written);
            if last.Some? then Min(target, left + 1) else left
    ensures last.None? ==> |merged| < target
    ensures var n := if written == [] then 0 else Estimate(rows, nlaunched, written[0].maxDoc);
            MergedInStretches(merged, unmerged, written, last, n, target)
    ensures last.Some? && written != [] ==>
              var n := Estimate(rows, nlaunched, written[0].maxDoc);
              n == |written| + 1 && 2 * target <= n ==> AsPlanned(merged, n, target) && unmerged == []
  {
    var n;
    merged, unmerged, n := ScanAndCommit(target, rows, nlaunched, written, last);
  }

  /** When a build without a last segment keeps its target: if there is nothing to merge, when no more
      segments than that were written; otherwise, after the `k` merges these filled, when the segments
      beyond them are no more than the merges not done. */
  lemma TargetKeptIff(n: nat, target: nat, w: nat, k: nat)
    requires k < target
    requires if n / target <= 1 then k == 0
             else Planned(n, target, k) <= w && (k < target - 1 ==> w < Planned(n, target, k + 1))
    ensures SegmentsLeft(n, target, w) <= target <==> w <= Planned(n, target, k) + target - k
  {
    if 1 < n / target {
      MergesDoneIs(n, target, w, k);
    }
  }

  /** The sizes of the final segments, in the number of segments merged into each, when the estimate
      was right. */
  ghost predicate EvenLayout(n: nat, target: nat)
    requires 0 < target
  {
    forall k :: 0 <= k < target - 1 ==>
                  var last := n - Planned(n, target, target - 1);
                  PlannedSize(n, target, k) - 1 <= last <= PlannedSize(n, target, k) + 1
  }

  /** The final segments are as even as the chunks were meant to be exactly when at most one chunk is
      longer than the others. */
  lemma LayoutIsEvenIff(n: nat, target: nat)
    requires 0 < target
    ensures EvenLayout(n, target) <==> target == 1 || n % target <= 1
  {
    LeftForTheLast(n, target);
    if 1 < target {
      assert PlannedSize(n, target, 0) == n / target;
      forall k | 0 <= k < target - 1
        ensures n / target <= PlannedSize(n, target, k) <= n / target + 1
        ensures n % target <= 1 ==> PlannedSize(n, target, k) == n / target
      {
      }
    }
  }

  /** A worker that is to make one segment makes two, because its scan ended with the second. */
  method TargetExceeded() returns (target: nat, merged: seq<seq<Meta>>, unmerged: seq<Meta>)
    ensures target == 1 && merged == [] && unmerged == [Meta(0, 10), Meta(1, 10)]
  {
    target := 1;
    var written := [Meta(0, 10), Meta(1, 10)];
    merged, unmerged := Build(target, 20, 1, written, None);
    assert MergesDone(Estimate(20, 1, 10), 1, 2) == 0;
  }

  /** Eight segments for a target of three are merged into two, two and four. */
  lemma UnevenLayout()
    ensures PlannedSize(8, 3, 0) == 2 && PlannedSize(8, 3, 1) == 2 && 8 - Planned(8, 3, 2) == 4
    ensures !EvenLayout(8, 3)
  {
    LayoutIsEvenIff(8, 3);
    assert Planned(8, 3, 2) == Planned(8, 3, 1) + PlannedSize(8, 3, 1);
    assert Planned(8, 3, 1) == Planned(8, 3, 0) + PlannedSize(8, 3, 0);
  }
}
