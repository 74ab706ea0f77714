/** Whether a fresh run of the merge policy over the segments a run left behind finds anything to
    merge. With the segments listed in the same order it never does; in another order it can, but
    only if a heavy segment counts for the same size as a light one. */
module MergeQuiescence {
  import opened MergePolicy

  /** A segment that fits a layer and does not fill a candidate on its own. */
  predicate Light(x: Item, layer: nat) {
    x.adjusted <= layer && x.actual < 4 * layer / 3
  }

  /** No light segment comes before a heavy one. */
  ghost predicate HeavyFirst(items: seq<Item>, layer: nat) {
    forall i, j :: 0 <= i < j < |items| && Heavy(items[j], layer) ==> !Light(items[i], layer)
  }

  function LightSize(x: Item, layer: nat): nat {
    if Light(x, layer) then x.actual else 0
  }

  function LightTotal(items: seq<Item>, layer: nat): nat {
    if items == [] then 0 else LightSize(items[0], layer) + LightTotal(items[1..], layer)
  }

  ghost predicate AllSingle(bins: seq<seq<Item>>) {
    forall k :: 0 <= k < |bins| ==> |bins[k]| == 1
  }

  // ---------- One layer ----------

  /** With something in the open bin, no bin is closed exactly if no heavy segment comes and the light
      ones do not fill it. */
  lemma {:induction false} NoneClosed(items: seq<Item>, layer: nat, bin: seq<Item>)
    requires bin != [] && Total(bin) < Extended(layer)
    ensures AllSingle(Bins(items, layer, bin)) <==> Bins(items, layer, bin) == []
    ensures AllSingle(Bins(items, layer, bin)) <==>
            (forall x :: x in items ==> !Heavy(x, layer)) && Total(bin) + LightTotal(items, layer) < Extended(layer)
  {
    if items != [] {
      var x, rest := items[0], items[1..];
      assert items == [x] + rest;
      if x.adjusted > layer {
        NoneClosed(rest, layer, bin);
      } else if Total(bin) + x.actual >= Extended(layer) {
        assert |Bins(items, layer, bin)[0]| == |bin| + 1;
        assert x in items && (Heavy(x, layer) || LightTotal(items, layer) >= x.actual);
      } else {
        TotalOfAppend(bin, x);
        NoneClosed(rest, layer, bin + [x]);
      }
    }
  }

  lemma HeavyFirstStep(items: seq<Item>, layer: nat)
    requires items != []
    ensures HeavyFirst(items, layer) <==>
            HeavyFirst(items[1..], layer) && (Light(items[0], layer) ==> forall x :: x in items[1..] ==> !Heavy(x, layer))
  {
    var rest := items[1..];
    if HeavyFirst(items, layer) {
      forall i, j | 0 <= i < j < |rest| && Heavy(rest[j], layer)
        ensures !Light(rest[i], layer)
      {
        assert rest[i] == items[i + 1] && rest[j] == items[j + 1];
      }
    } else {
      var i, j :| 0 <= i < j < |items| && Heavy(items[j], layer) && Light(items[i], layer);
      assert rest[j - 1] == items[j];
      if 0 < i {
        assert rest[i - 1] == items[i];
      }
    }
  }

  /** All bins of a layer are single segments exactly if the heavy ones come first and the light ones
      fill no bin. */
  lemma {:induction false} SinglesIff(items: seq<Item>, layer: nat)
    requires 0 < layer
    ensures AllSingle(Bins(items, layer, [])) <==> HeavyFirst(items, layer) && LightTotal(items, layer) < 4 * layer / 3
  {
    if items != [] {
      var x, rest := items[0], items[1..];
      HeavyFirstStep(items, layer);
      if x.adjusted > layer {
        SinglesIff(rest, layer);
      } else if x.actual >= Extended(layer) {
        SinglesIff(rest, layer);
        var bins := Bins(items, layer, []);
        assert [] + [x] == [x];
        assert bins == [[x]] + Bins(rest, layer, []);
        assert forall k :: 0 <= k < |Bins(rest, layer, [])| ==> bins[k + 1] == Bins(rest, layer, [])[k];
      } else {
        TotalOfAppend([], x);
        assert [] + [x] == [x];
        NoneClosed(rest, layer, [x]);
        LaterLights(rest, layer);
      }
    }
  }

  lemma LaterLights(items: seq<Item>, layer: nat)
    ensures (forall x :: x in items ==> !Heavy(x, layer)) ==> HeavyFirst(items, layer)
  {
  }

  /** The heavy segments, in order. */
  function Heavies(items: seq<Item>, layer: nat): (r: seq<Item>)
    ensures forall x :: x in r <==> x in items && Heavy(x, layer)
  {
    if items == [] then []
    else
      assert items == [items[0]] + items[1..];
      (if Heavy(items[0], layer) then [items[0]] else []) + Heavies(items[1..], layer)
  }

  function Wrap(items: seq<Item>): seq<seq<Item>> {
    seq(|items|, i requires 0 <= i < |items| => [items[i]])
  }

  /** Then the bins are exactly the heavy segments. */
  lemma {:induction false} SinglesAreHeavy(items: seq<Item>, layer: nat)
    requires 0 < layer && AllSingle(Bins(items, layer, []))
    ensures Bins(items, layer, []) == Wrap(Heavies(items, layer))
  {
    if items != [] {
      var x, rest := items[0], items[1..];
      assert [] + [x] == [x];
      if x.adjusted > layer {
        SinglesAreHeavy(rest, layer);
      } else if x.actual >= Extended(layer) {
        var bins := Bins(rest, layer, []);
        assert Bins(items, layer, []) == [[x]] + bins;
        assert forall k :: 0 <= k < |bins| ==> bins[k] == Bins(items, layer, [])[k + 1];
        SinglesAreHeavy(rest, layer);
      } else {
        TotalOfAppend([], x);
        NoneClosed(rest, layer, [x]);
        NoHeavies(rest, layer);
      }
    }
  }

  lemma NoHeavies(items: seq<Item>, layer: nat)
    requires forall x :: x in items ==> !Heavy(x, layer)
    ensures Heavies(items, layer) == []
  {
  }

  lemma HeavyMembers(items: seq<Item>, layer: nat, id: SegmentId)
    requires 0 < layer && AllSingle(Bins(items, layer, []))
    ensures id in Members(Tagged(layer, Bins(items, layer, []))) <==> exists x :: x in items && Heavy(x, layer) && x.id == id
  {
    SinglesAreHeavy(items, layer);
    var hs := Heavies(items, layer);
    var tagged := Tagged(layer, Wrap(hs));
    if id in Members(tagged) {
      var k :| 0 <= k < |tagged| && id in IdsOf(tagged[k]);
      assert hs[k] in hs && hs[k].id == id;
    }
    if x :| x in items && Heavy(x, layer) && x.id == id {
      assert x in hs;
      var k :| 0 <= k < |hs| && hs[k] == x;
      assert tagged[k] == Candidate(layer, [x]) && x in tagged[k].members;
      assert id in IdsOf(tagged[k]);
    }
  }

  // ---------- The order of the segments ----------

  ghost predicate SameItems(a: seq<Item>, b: seq<Item>) {
    Distinct(a) && Distinct(b) && forall x :: x in a <==> x in b
  }

  lemma LightTotalSplit(a: seq<Item>, b: seq<Item>, layer: nat)
    ensures LightTotal(a + b, layer) == LightTotal(a, layer) + LightTotal(b, layer)
  {
    if a == [] {
      assert a + b == b;
    } else {
      assert (a + b)[1..] == a[1..] + b;
      LightTotalSplit(a[1..], b, layer);
    }
  }

  lemma WithoutOne(b: seq<Item>, i: nat, x: Item)
    requires Distinct(b) && i < |b|
    ensures var rest := b[..i] + b[i + 1..];
            Distinct(rest) && (x in rest <==> x in b && x != b[i])
  {
    var rest := b[..i] + b[i + 1..];
    if x in b && x != b[i] {
      var k :| 0 <= k < |b| && b[k] == x;
      assert rest[if k < i then k else k - 1] == x;
    }
    if x in rest {
      var k :| 0 <= k < |rest| && rest[k] == x;
      assert b[if k < i then k else k + 1] == x;
    }
  }

  lemma EmptyIff(items: seq<Item>)
    ensures items == [] <==> forall x :: x !in items
  {
    if items != [] {
      assert items[0] in items;
    }
  }

  /** What the light segments add up to does not depend on their order. */
  lemma {:induction false} LightTotalSame(a: seq<Item>, b: seq<Item>, layer: nat)
    requires SameItems(a, b)
    ensures LightTotal(a, layer) == LightTotal(b, layer)
    decreases |a|
  {
    if a == [] {
      EmptyIff(b);
    } else {
      assert a[0] in a;
      var i :| 0 <= i < |b| && b[i] == a[0];
      var rest := b[..i] + b[i + 1..];
      forall x
        ensures x in a[1..] <==> x in rest
      {
        WithoutOne(a, 0, x);
        assert a[..0] + a[1..] == a[1..];
        WithoutOne(b, i, x);
      }
      WithoutOne(b, i, a[0]);
      LightTotalSame(a[1..], rest, layer);
      LightTotalSplit(b[..i], b[i + 1..], layer);
      LightTotalSplit(b[..i], b[i..], layer);
      assert b[..i] + b[i..] == b && b[i..][1..] == b[i + 1..];
    }
  }

  /** A heavy and a light segment that count for the same size. */
  ghost predicate Tie(x: Item, y: Item, layer: nat) {
    Heavy(x, layer) && Light(y, layer) && x.adjusted == y.adjusted
  }

  lemma HeavyFirstSame(a: seq<Item>, b: seq<Item>, layer: nat)
    requires SameItems(a, b) && Descending(a) && Descending(b) && HeavyFirst(a, layer)
    requires forall x, y :: x in a && y in a ==> !Tie(x, y, layer)
    ensures HeavyFirst(b, layer)
  {
    forall i, j | 0 <= i < j < |b| && Heavy(b[j], layer)
      ensures !Light(b[i], layer)
    {
      assert b[i] in b && b[j] in b;
      var k :| 0 <= k < |a| && a[k] == b[i];
      var l :| 0 <= l < |a| && a[l] == b[j];
      assert b[i].adjusted >= b[j].adjusted;
      assert !Tie(b[j], b[i], layer);
    }
  }

  /** Without ties, whether all bins of a layer are single segments does not depend on the order. */
  lemma SinglesSame(a: seq<Item>, b: seq<Item>, layer: nat)
    requires 0 < layer && SameItems(a, b) && Descending(a) && Descending(b)
    requires forall x, y :: x in a && y in a ==> !Tie(x, y, layer)
    requires AllSingle(Bins(a, layer, []))
    ensures AllSingle(Bins(b, layer, []))
  {
    SinglesIff(a, layer);
    SinglesIff(b, layer);
    LightTotalSame(a, b, layer);
    HeavyFirstSame(a, b, layer);
  }

  // ---------- All layers ----------

  ghost predicate Singular(plan: seq<Candidate>) {
    forall k :: 0 <= k < |plan| ==> |plan[k].members| == 1
  }

  lemma SingularAppend(a: seq<Candidate>, b: seq<Candidate>)
    ensures Singular(a + b) <==> Singular(a) && Singular(b)
  {
    if Singular(a + b) {
      assert forall k :: 0 <= k < |a| ==> a[k] == (a + b)[k];
      assert forall k :: 0 <= k < |b| ==> b[k] == (a + b)[|a| + k];
    }
  }

  lemma SingularTagged(layer: nat, bins: seq<seq<Item>>)
    ensures Singular(Tagged(layer, bins)) <==> AllSingle(bins)
  {
    if Singular(Tagged(layer, bins)) {
      assert forall k :: 0 <= k < |bins| ==> Tagged(layer, bins)[k].members == bins[k];
    }
  }

  /** No heavy segment of a layer counts for the same size as a light one. */
  ghost predicate NoTies(ms: seq<Meta>, entries: Entries, layers: seq<nat>) {
    forall x, y, l :: FromGiven(x, ms, entries) && FromGiven(y, ms, entries) && l in layers ==> !Tie(x, y, l)
  }

  /** The same segments of the map, as far as they are given. */
  ghost predicate SameGiven(a: seq<Meta>, b: seq<Meta>, entries: Entries) {
    DistinctMetas(a) && DistinctMetas(b) && forall m: Meta :: m.id in entries ==> (m in a <==> m in b)
  }

  lemma CollectSame(a: seq<Meta>, b: seq<Meta>, entries: Entries, claimed: set<SegmentId>)
    requires SameGiven(a, b, entries)
    ensures SameItems(Collect(a, entries, claimed), Collect(b, entries, claimed))
    ensures Descending(Collect(a, entries, claimed)) && Descending(Collect(b, entries, claimed))
    ensures forall x :: x in Collect(a, entries, claimed) ==> FromGiven(x, a, entries)
  {
    CollectFacts(a, entries, claimed);
    CollectFacts(b, entries, claimed);
  }

  /** One layer: the same single bins, and so the same segments claimed, in either order. */
  lemma LayerSame(a: seq<Meta>, b: seq<Meta>, entries: Entries, layer: nat, claimed: set<SegmentId>)
    requires SameGiven(a, b, entries) && 0 < layer && NoTies(a, entries, [layer])
    requires AllSingle(Bins(Collect(a, entries, claimed), layer, []))
    ensures AllSingle(Bins(Collect(b, entries, claimed), layer, []))
    ensures Members(Tagged(layer, Bins(Collect(a, entries, claimed), layer, []))) ==
            Members(Tagged(layer, Bins(Collect(b, entries, claimed), layer, [])))
  {
    CollectSame(a, b, entries, claimed);
    var x, y := Collect(a, entries, claimed), Collect(b, entries, claimed);
    assert layer in [layer];
    SinglesSame(x, y, layer);
    forall id
      ensures id in Members(Tagged(layer, Bins(x, layer, []))) <==> id in Members(Tagged(layer, Bins(y, layer, [])))
    {
      HeavyMembers(x, layer, id);
      HeavyMembers(y, layer, id);
    }
  }

  lemma OtherLayers(layers: seq<nat>)
    requires layers != [] && PositiveLayers(layers)
    ensures 0 < layers[0] && PositiveLayers(layers[1..]) && layers[0] in layers
    ensures forall l :: l in layers <==> l == layers[0] || l in layers[1..]
  {
    assert layers == [layers[0]] + layers[1..];
    assert layers[0] in layers;
    forall l | l in layers[1..]
      ensures l > 0
    {
      assert l in layers;
    }
  }

  lemma {:induction false} PlanSame(a: seq<Meta>, b: seq<Meta>, entries: Entries, layers: seq<nat>, claimed: set<SegmentId>)
    requires SameGiven(a, b, entries) && PositiveLayers(layers) && NoTies(a, entries, layers)
    requires Singular(LayerPlan(a, entries, layers, claimed))
    ensures Singular(LayerPlan(b, entries, layers, claimed))
    decreases |layers|
  {
    if layers != [] {
      var l := layers[0];
      OtherLayers(layers);
      var x, y := Bins(Collect(a, entries, claimed), l, []), Bins(Collect(b, entries, claimed), l, []);
      var members := Members(Tagged(l, x));
      SingularAppend(Tagged(l, x), LayerPlan(a, entries, layers[1..], claimed + members));
      SingularTagged(l, x);
      LayerSame(a, b, entries, l, claimed);
      PlanSame(a, b, entries, layers[1..], claimed + members);
      SingularTagged(l, y);
      SingularAppend(Tagged(l, y), LayerPlan(b, entries, layers[1..], claimed + members));
    }
  }

  // ---------- A tie ----------

  /** A segment listed first comes before all others that count for the same size. */
  lemma {:induction false} FirstOfTies(x: Item, items: seq<Item>) returns (p: nat)
    requires Descending(items)
    ensures var r := InsertBySize(x, items);
            p < |r| && r[p] == x && forall q :: 0 <= q < p ==> r[q].adjusted > x.adjusted
  {
    if items == [] || items[0].adjusted <= x.adjusted {
      p := 0;
    } else {
      var p' := FirstOfTies(x, items[1..]);
      p := p' + 1;
    }
  }

  /** So the segment listed first comes before one of the same size. */
  lemma FirstComesFirst(ms: seq<Meta>, entries: Entries, claimed: set<SegmentId>, x: Item) returns (p: nat, q: nat)
    requires DistinctMetas(ms) && ms != [] && ms[0].id in entries && ms[0].id !in claimed
    requires x in Collect(ms, entries, claimed) && x != Sized(ms[0], entries)
    requires x.adjusted == Sized(ms[0], entries).adjusted
    ensures var items := Collect(ms, entries, claimed);
            p < q < |items| && items[p] == Sized(ms[0], entries) && items[q] == x
  {
    var y, rest := Sized(ms[0], entries), Eligible(ms[1..], entries, claimed);
    EligibleFacts(ms[1..], entries, claimed);
    SortedBySizeFacts(rest);
    assert ([y] + rest)[1..] == rest;
    p := FirstOfTies(y, SortedBySize(rest));
    var items := Collect(ms, entries, claimed);
    q :| 0 <= q < |items| && items[q] == x;
  }

  /** A light segment before a heavy one gives a bin of more than one. */
  lemma TieIsNotSingle(ms: seq<Meta>, entries: Entries, layer: nat, claimed: set<SegmentId>, x: Item)
    requires DistinctMetas(ms) && ms != [] && 0 < layer
    requires ms[0].id in entries && ms[0].id !in claimed && x in Collect(ms, entries, claimed)
    requires Tie(x, Sized(ms[0], entries), layer)
    ensures !AllSingle(Bins(Collect(ms, entries, claimed), layer, []))
  {
    var p, q := FirstComesFirst(ms, entries, claimed, x);
    SinglesIff(Collect(ms, entries, claimed), layer);
  }

  /** In the first layer for which the segment is heavy, or in a later one. */
  lemma {:induction false} TieIsNotSingular(ms: seq<Meta>, entries: Entries, layers: seq<nat>, claimed: set<SegmentId>,
                                            x: Item, layer: nat)
    requires DistinctMetas(ms) && ms != [] && PositiveLayers(layers) && DescendingLayers(layers) && layer in layers
    requires ms[0].id in entries && ms[0].id !in claimed && x.id !in claimed && FromGiven(x, ms, entries)
    requires Tie(x, Sized(ms[0], entries), layer)
    ensures !Singular(LayerPlan(ms, entries, layers, claimed))
    decreases |layers|
  {
    var l := layers[0];
    var y := Sized(ms[0], entries);
    OtherLayers(layers);
    assert layer <= l;
    var items := Collect(ms, entries, claimed);
    var bins := Bins(items, l, []);
    SingularTagged(l, bins);
    SingularAppend(Tagged(l, bins), LayerPlan(ms, entries, layers[1..], claimed + Members(Tagged(l, bins))));
    CollectFacts(ms, entries, claimed);
    if Heavy(x, l) {
      TieIsNotSingle(ms, entries, l, claimed, x);
    } else if AllSingle(bins) {
      HeavyMembers(items, l, x.id);
      HeavyMembers(items, l, y.id);
      TieIsNotSingular(ms, entries, layers[1..], claimed + Members(Tagged(l, bins)), x, layer);
    }
  }

  // ---------- The fresh run ----------

  lemma {:induction false} PrunedIffSingular(plan: seq<Candidate>, entries: Entries)
    requires forall k :: 0 <= k < |plan| ==> plan[k].members != [] && NoMutable(plan[k], entries)
    ensures Pruned(plan, entries, 2) == [] <==> Singular(plan)
  {
    if plan != [] {
      var rest := plan[1..];
      assert forall k :: 0 <= k < |rest| ==> rest[k] == plan[k + 1];
      PrunedIffSingular(rest, entries);
      assert plan == [plan[0]] + rest;
      SingularAppend([plan[0]], rest);
      assert plan[0].members[0] in plan[0].members;
      assert Singular([plan[0]]) <==> |plan[0].members| == 1 by {
        assert [plan[0]][0] == plan[0];
      }
    }
  }

  /** Without mutable segments, a run returns nothing exactly if it plans single segments only. */
  lemma QuietIff(ms: seq<Meta>, entries: Entries, layers: seq<nat>)
    requires DistinctMetas(ms) && PositiveLayers(layers) && IsMutables([], ms, entries)
    ensures Pruned(Plan(ms, entries, layers, []), entries, 2) == [] <==>
            Singular(LayerPlan(ms, entries, SortedLayers(layers), {}))
  {
    PlanIsGood(ms, entries, layers, []);
    var plan := Plan(ms, entries, layers, []);
    assert Members(Singles([])) == {};
    assert plan == LayerPlan(ms, entries, SortedLayers(layers), {});
    forall k | 0 <= k < |plan|
      ensures plan[k].members != [] && NoMutable(plan[k], entries)
    {
      assert LayerCandidate(plan[k], ms, entries);
    }
    PrunedIffSingular(plan, entries);
  }

  /** The given segment moved to the front. */
  function MovedUp(ms: seq<Meta>, i: nat): seq<Meta>
    requires i < |ms|
  {
    [ms[i]] + ms[..i] + ms[i + 1..]
  }

  lemma MovedUpIsSame(ms: seq<Meta>, i: nat, entries: Entries)
    requires DistinctMetas(ms) && i < |ms|
    ensures SameGiven(ms, MovedUp(ms, i), entries) && MovedUp(ms, i)[0] == ms[i]
  {
    var moved := MovedUp(ms, i);
    forall m
      ensures m in ms <==> m in moved
    {
      if m in ms {
        var k :| 0 <= k < |ms| && ms[k] == m;
        assert moved[if k == i then 0 else if k < i then k + 1 else k] == m;
      }
      if m in moved {
        var k :| 0 <= k < |moved| && moved[k] == m;
        assert ms[if k == 0 then i else if k <= i then k - 1 else k] == m;
      }
    }
  }

  /** A run that returns nothing would return nothing in any order, exactly if there are no ties. */
  lemma QuietInAnyOrderIff(ms: seq<Meta>, entries: Entries, layers: seq<nat>)
    requires DistinctMetas(ms) && PositiveLayers(layers) && IsMutables([], ms, entries)
    requires Pruned(Plan(ms, entries, layers, []), entries, 2) == []
    ensures NoTies(ms, entries, layers) <==>
            forall b :: SameGiven(ms, b, entries) ==> Pruned(Plan(b, entries, layers, []), entries, 2) == []
  {
    SortedLayersFacts(layers);
    QuietIff(ms, entries, layers);
    if NoTies(ms, entries, layers) {
      forall b | SameGiven(ms, b, entries)
        ensures Pruned(Plan(b, entries, layers, []), entries, 2) == []
      {
        PlanSame(ms, b, entries, SortedLayers(layers), {});
        NoMutablesSame(ms, b, entries);
        QuietIff(b, entries, layers);
      }
    } else {
      var b := TieBreaks(ms, entries, layers);
    }
  }

  lemma NoMutablesSame(a: seq<Meta>, b: seq<Meta>, entries: Entries)
    requires SameGiven(a, b, entries) && IsMutables([], a, entries)
    ensures IsMutables([], b, entries)
  {
    forall x | FromGiven(x, b, entries)
      ensures !entries[x.id].mutable
    {
      var m :| m in b && m.id in entries && x == Sized(m, entries);
      assert FromGiven(x, a, entries);
    }
  }

  /** With a tie, the order with the light segment first has something to merge. */
  lemma TieBreaks(ms: seq<Meta>, entries: Entries, layers: seq<nat>) returns (b: seq<Meta>)
    requires DistinctMetas(ms) && PositiveLayers(layers) && IsMutables([], ms, entries) && !NoTies(ms, entries, layers)
    ensures SameGiven(ms, b, entries) && Pruned(Plan(b, entries, layers, []), entries, 2) != []
  {
    var x, y, l :| FromGiven(x, ms, entries) && FromGiven(y, ms, entries) && l in layers && Tie(x, y, l);
    var m :| m in ms && m.id in entries && y == Sized(m, entries);
    var n :| n in ms && n.id in entries && x == Sized(n, entries);
    var i :| 0 <= i < |ms| && ms[i] == m;
    b := MovedUp(ms, i);
    MovedUpIsSame(ms, i, entries);
    assert n in b && FromGiven(x, b, entries);
    SortedLayersFacts(layers);
    TieIsNotSingular(b, entries, SortedLayers(layers), {}, x, l);
    NoMutablesSame(ms, b, entries);
    QuietIff(b, entries, layers);
  }

  // ---------- Two runs of the policy ----------

  function SizedIn(id: SegmentId, entries: Entries): Item
    requires id in entries
  {
    Sized(Meta(id, entries[id].numDocs), entries)
  }

  ghost predicate NoTiesIn(entries: Entries, layers: seq<nat>) {
    forall i, j, l :: i in entries && j in entries && l in layers ==> !Tie(SizedIn(i, entries), SizedIn(j, entries), l)
  }

  lemma NoTiesListed(ms: seq<Meta>, entries: Entries, left: Entries, layers: seq<nat>)
    requires Relists(ms, entries) && NoTiesIn(left, layers)
    requires forall id :: id in left ==> id in entries && left[id] == entries[id]
    ensures NoTies(ms, left, layers)
  {
    forall x, y, l | FromGiven(x, ms, left) && FromGiven(y, ms, left) && l in layers
      ensures !Tie(x, y, l)
    {
      assert x == SizedIn(x.id, left) && y == SizedIn(y.id, left);
    }
  }

  lemma UnionIsMembers(candidates: seq<Candidate>)
    ensures UnionOf(IdLists(candidates)) == Members(candidates)
  {
    var lists := IdLists(candidates);
    forall k, id | 0 <= k < |candidates|
      ensures id in lists[k] <==> id in IdsOf(candidates[k])
    {
      IdsFacts(candidates[k]);
    }
    forall id
      ensures id in UnionOf(lists) <==> id in Members(candidates)
    {
      if id in UnionOf(lists) {
        var k :| 0 <= k < |lists| && id in lists[k];
        assert id in IdsOf(candidates[k]);
      }
      if id in Members(candidates) {
        var k :| 0 <= k < |candidates| && id in IdsOf(candidates[k]);
        assert id in lists[k];
      }
    }
  }

  /** What a run over the leftovers of another, listed in any order, returns without ties. */
  lemma LeftoversAreQuiet(ms: seq<Meta>, entries: Entries, layers: seq<nat>, mutables: seq<Item>,
                          left: Entries, ms': seq<Meta>, mutables': seq<Item>)
    requires Relists(ms, entries) && PositiveLayers(layers) && IsMutables(mutables, ms, entries)
    requires left == entries - Members(Pruned(Plan(ms, entries, layers, mutables), entries, 2))
    requires Relists(ms', left) && IsMutables(mutables', ms', left) && NoTiesIn(left, layers)
    ensures Pruned(Plan(ms', left, layers, mutables'), left, 2) == []
  {
    ResultIsQuiescent(ms, entries, layers, mutables, 2);
    NoTiesListed(ms, entries, left, layers);
    QuietInAnyOrderIff(ms, left, layers);
    assert SameGiven(ms, ms', left);
    NoMutablesSame(ms, ms', left);
    EmptyIff(mutables');
  }

  /** A run of the policy, and a fresh run over the segments in no returned candidate: it panics
      exactly if these have no document, and otherwise, without ties, returns nothing. */
  method SimulateLeftovers(layerSizes: seq<nat>, all: Entries)
    returns (first: Outcome<seq<seq<SegmentId>>>, second: Outcome<seq<seq<SegmentId>>>)
    requires PositiveLayers(layerSizes)
    ensures first.Panic? <==> all != map[] && NoDocs(all, all.Keys)
    ensures first.Value? ==>
              var left := all - UnionOf(first.value);
              && (second.Panic? <==> left != map[] && NoDocs(left, left.Keys))
              && (second.Value? && NoTiesIn(left, layerSizes) ==> second.value == [])
  {
    var policy := new LayeredMergePolicy(layerSizes);
    policy.SetMergeable(all, {}, {});
    assert all - ({} + {}) == all;
    ghost var ms, mutables, ms', mutables';
    first, ms, mutables := policy.Simulate();
    if first.Panic? {
      return first, first;
    }
    var another := new LayeredMergePolicy(layerSizes);
    another.SetMergeable(all, UnionOf(first.value), {});
    ghost var left := all - UnionOf(first.value);
    assert all - (UnionOf(first.value) + {}) == left;
    second, ms', mutables' := another.Simulate();
    if second.Value? && left != map[] && NoTiesIn(left, layerSizes) {
      UnionIsMembers(Pruned(Plan(ms, all, layerSizes, mutables), all, 2));
      LeftoversAreQuiet(ms, all, layerSizes, mutables, left, ms', mutables');
    }
  }

  lemma CollectTwo(m: Meta, n: Meta, entries: Entries)
    requires m.id in entries && n.id in entries && Sized(m, entries).adjusted >= Sized(n, entries).adjusted
    ensures Collect([m, n], entries, {}) == [Sized(m, entries), Sized(n, entries)]
  {
    var x, y := Sized(m, entries), Sized(n, entries);
    assert [m, n][1..] == [n] && [n][1..] == [];
    assert Eligible([n], entries, {}) == [y] + Eligible([], entries, {});
    assert Eligible([m, n], entries, {}) == [x] + [y];
    assert ([x] + [y])[1..] == [y] && [y][1..] == [];
    assert SortedBySize([y]) == InsertBySize(y, []) == [y];
    assert SortedBySize([x] + [y]) == InsertBySize(x, [y]) == [x] + [y];
  }

  lemma LightTotalOfTwo(x: Item, y: Item, layer: nat)
    ensures LightTotal([x, y], layer) == LightSize(x, layer) + LightSize(y, layer)
  {
    assert [x, y][1..] == [y] && [y][1..] == [];
    assert LightTotal([y], layer) == LightSize(y, layer) + LightTotal([], layer);
  }

  /** A segment with seven of eight documents deleted and one as small as what is left of it: in this
      order nothing is returned, but in the other both are to be merged. */
  lemma OrderMatters()
    ensures var entries := map[1 := Entry(8, 1, 7, false), 2 := Entry(1, 1, 0, false)];
            var heavy, light := Meta(1, 1), Meta(2, 1);
            && Pruned(Plan([heavy, light], entries, [3], []), entries, 2) == []
            && Pruned(Plan([light, heavy], entries, [3], []), entries, 2) != []
  {
    var entries := map[1 := Entry(8, 1, 7, false), 2 := Entry(1, 1, 0, false)];
    var heavy, light := Meta(1, 1), Meta(2, 1);
    var x, y := Item(1, 1, 8), Item(2, 1, 1);
    assert Sized(heavy, entries) == x && Sized(light, entries) == y;
    var a, b := [heavy, light], [light, heavy];
    assert SortedLayers([3]) == [3] by {
      assert [3][1..] == [];
    }
    CollectTwo(heavy, light, entries);
    SinglesIff([x, y], 3);
    LightTotalOfTwo(x, y, 3);
    SingularTagged(3, Bins([x, y], 3, []));
    var head := Tagged(3, Bins([x, y], 3, []));
    assert LayerPlan(a, entries, [3], {}) == head + LayerPlan(a, entries, [3][1..], {} + Members(head));
    assert LayerPlan(a, entries, [3][1..], {} + Members(head)) == [];
    QuietIff(a, entries, [3]);
    assert FromGiven(x, b, entries) by {
      assert heavy in b;
    }
    TieIsNotSingular(b, entries, [3], {}, x, 3);
    QuietIff(b, entries, [3]);
  }
}
