/** The layered merge policy: which segments of an index are merged together.

    `Bins`, `LayerPlan` and `Plan` say what the policy chooses; the class holds the policy's state
    and its loops, proved to compute exactly that choice. */
module MergePolicy {
  type SegmentId = nat

  /** A segment as the storage layer describes it. */
  datatype Entry = Entry(byteSize: nat, numDocs: nat, numDeleted: nat, mutable: bool)

  /** A segment as the index library describes it to the policy. */
  datatype Meta = Meta(id: SegmentId, numDocs: nat)

  /** Segments to merge together, with the layer they were chosen for. */
  datatype Candidate = Candidate(layer: nat, members: seq<Item>)

  datatype Outcome<+T> = Panic | Value(value: T)

  type Entries = map<SegmentId, Entry>

  // ---------- Sizes ----------

  function Extended(layer: nat): nat {
    layer + layer / 3
  }

  function ActualByteSize(meta: Meta, entries: Entries, avgDocSize: nat): nat {
    if meta.id in entries then entries[meta.id].byteSize else meta.numDocs * avgDocSize
  }

  function AdjustedByteSize(meta: Meta, entries: Entries, avgDocSize: nat): nat {
    if meta.numDocs == 0 then 0
    else if meta.id in entries then AliveBytes(entries[meta.id])
    else meta.numDocs * avgDocSize
  }

  /** The share of the bytes that belongs to documents which are not deleted. */
  function AliveBytes(e: Entry): (r: nat)
    ensures r <= e.byteSize
    ensures e.numDocs > 0 && e.numDeleted == 0 ==> r == e.byteSize
  {
    if e.numDocs + e.numDeleted == 0 then 0
    else
      ShareOfBytes(e.byteSize, e.numDocs, e.numDocs + e.numDeleted);
      e.byteSize * e.numDocs / (e.numDocs + e.numDeleted)
  }

  /** That is, rounded down, the bytes times the documents that are not deleted by all of them. */
  lemma AliveShare(e: Entry)
    ensures var all := e.numDocs + e.numDeleted;
            if all == 0 then AliveBytes(e) == 0
            else AliveBytes(e) * all <= e.byteSize * e.numDocs < (AliveBytes(e) + 1) * all
  {
    var all := e.numDocs + e.numDeleted;
    if all > 0 {
      var product := e.byteSize * e.numDocs;
      assert AliveBytes(e) == product / all;
      assert product == all * (product / all) + product % all;
    }
  }

  lemma ShareOfBytes(bytes: nat, part: nat, whole: nat)
    requires part <= whole && whole > 0
    ensures 0 <= bytes * part / whole <= bytes
    ensures part == whole ==> bytes * part / whole == bytes
  {
    var q := bytes * part / whole;
    assert bytes * part == whole * q + bytes * part % whole;
    assert bytes * whole - bytes * part == bytes * (whole - part) >= 0;
    assert whole * (bytes - q) == bytes * (whole - part) + bytes * part % whole;
    Multiple(whole, bytes - q);
    Multiple(whole, q);
  }

  lemma Multiple(d: nat, k: int)
    ensures k <= -1 ==> d * k <= 0 - d
    ensures k >= 1 ==> d * k >= d
  {
  }

  /** A segment with the sizes the policy compares. */
  datatype Item = Item(id: SegmentId, adjusted: nat, actual: nat)

  function Sized(m: Meta, entries: Entries): Item {
    Item(m.id, AdjustedByteSize(m, entries, 0), ActualByteSize(m, entries, 0))
  }

  /** For a segment the policy may merge, the average document size plays no part. */
  lemma AverageIsIrrelevant(m: Meta, entries: Entries, avgDocSize: nat)
    requires m.id in entries
    ensures Sized(m, entries) == Item(m.id, AdjustedByteSize(m, entries, avgDocSize), ActualByteSize(m, entries, avgDocSize))
  {
  }

  function Total(items: seq<Item>): nat {
    if items == [] then 0 else Total(items[..|items| - 1]) + items[|items| - 1].actual
  }

  // ---------- What is chosen ----------

  function SortedBySize(items: seq<Item>): seq<Item> {
    if items == [] then [] else InsertBySize(items[0], SortedBySize(items[1..]))
  }

  function InsertBySize(x: Item, items: seq<Item>): seq<Item> {
    if items == [] || items[0].adjusted <= x.adjusted then [x] + items else [items[0]] + InsertBySize(x, items[1..])
  }

  function SortedLayers(layers: seq<nat>): seq<nat> {
    if layers == [] then [] else InsertLayer(layers[0], SortedLayers(layers[1..]))
  }

  function InsertLayer(layer: nat, layers: seq<nat>): seq<nat> {
    if layers == [] || layers[0] <= layer then [layer] + layers else [layers[0]] + InsertLayer(layer, layers[1..])
  }

  /** The given segments that the policy may merge and has not claimed yet. */
  function Eligible(ms: seq<Meta>, entries: Entries, claimed: set<SegmentId>): seq<Item> {
    if ms == [] then []
    else if ms[0].id in entries && ms[0].id !in claimed then [Sized(ms[0], entries)] + Eligible(ms[1..], entries, claimed)
    else Eligible(ms[1..], entries, claimed)
  }

  function Collect(ms: seq<Meta>, entries: Entries, claimed: set<SegmentId>): seq<Item> {
    SortedBySize(Eligible(ms, entries, claimed))
  }

  /** Fill bins greedily with the items that fit the layer, starting from the bin `bin`; a bin is
      closed as soon as it reaches the extended layer size, and the last open bin is dropped. */
  function Bins(items: seq<Item>, layer: nat, bin: seq<Item>): seq<seq<Item>> {
    if items == [] then []
    else if items[0].adjusted > layer then Bins(items[1..], layer, bin)
    else if Total(bin) + items[0].actual >= Extended(layer) then [bin + [items[0]]] + Bins(items[1..], layer, [])
    else Bins(items[1..], layer, bin + [items[0]])
  }

  function Ids(items: seq<Item>): seq<SegmentId> {
    seq(|items|, i requires 0 <= i < |items| => items[i].id)
  }

  function Tagged(layer: nat, bins: seq<seq<Item>>): seq<Candidate> {
    seq(|bins|, i requires 0 <= i < |bins| => Candidate(layer, bins[i]))
  }

  function IdsOf(c: Candidate): set<SegmentId> {
    set x | x in c.members :: x.id
  }

  function Members(candidates: seq<Candidate>): set<SegmentId> {
    set k, id | 0 <= k < |candidates| && id in IdsOf(candidates[k]) :: id
  }

  function LayerPlan(ms: seq<Meta>, entries: Entries, layers: seq<nat>, claimed: set<SegmentId>): seq<Candidate> {
    if layers == [] then []
    else
      var candidates := Tagged(layers[0], Bins(Collect(ms, entries, claimed), layers[0], []));
      candidates + LayerPlan(ms, entries, layers[1..], claimed + Members(candidates))
  }

  /** Each mutable segment is converted on its own; the rest is binned layer by layer, the largest first. */
  function Plan(ms: seq<Meta>, entries: Entries, layers: seq<nat>, mutables: seq<Item>): seq<Candidate> {
    var singles := Singles(mutables);
    singles + LayerPlan(ms, entries, SortedLayers(layers), Members(singles))
  }

  function Singles(items: seq<Item>): seq<Candidate> {
    seq(|items|, i requires 0 <= i < |items| => Candidate(0, [items[i]]))
  }

  // ---------- Sorting and selecting ----------

  ghost predicate Distinct(items: seq<Item>) {
    forall i, j :: 0 <= i < j < |items| ==> items[i].id != items[j].id
  }

  ghost predicate DistinctMetas(ms: seq<Meta>) {
    forall i, j :: 0 <= i < j < |ms| ==> ms[i].id != ms[j].id
  }

  ghost predicate Descending(items: seq<Item>) {
    forall i, j :: 0 <= i < j < |items| ==> items[i].adjusted >= items[j].adjusted
  }

  lemma {:induction false} InsertBySizeFacts(x: Item, items: seq<Item>)
    requires Descending(items)
    ensures Descending(InsertBySize(x, items))
    ensures forall y :: y in InsertBySize(x, items) <==> y == x || y in items
    ensures Distinct(items) && (forall y :: y in items ==> y.id != x.id) ==> Distinct(InsertBySize(x, items))
  {
    if items == [] || items[0].adjusted <= x.adjusted {
    } else {
      var rest := InsertBySize(x, items[1..]);
      InsertBySizeFacts(x, items[1..]);
      assert forall y :: y in items <==> y == items[0] || y in items[1..];
      assert forall k :: 0 <= k < |rest| ==> rest[k] in rest;
    }
  }

  lemma {:induction false} SortedBySizeFacts(items: seq<Item>)
    ensures Descending(SortedBySize(items))
    ensures forall y :: y in SortedBySize(items) <==> y in items
    ensures Distinct(items) ==> Distinct(SortedBySize(items))
  {
    if items != [] {
      SortedBySizeFacts(items[1..]);
      InsertBySizeFacts(items[0], SortedBySize(items[1..]));
      assert forall y :: y in items <==> y == items[0] || y in items[1..];
    }
  }

  ghost predicate DescendingLayers(layers: seq<nat>) {
    forall i, j :: 0 <= i < j < |layers| ==> layers[i] >= layers[j]
  }

  lemma {:induction false} InsertLayerFacts(layer: nat, layers: seq<nat>)
    requires DescendingLayers(layers)
    ensures DescendingLayers(InsertLayer(layer, layers))
    ensures forall l :: l in InsertLayer(layer, layers) <==> l == layer || l in layers
  {
    if layers == [] || layers[0] <= layer {
    } else {
      var rest := InsertLayer(layer, layers[1..]);
      InsertLayerFacts(layer, layers[1..]);
      assert forall l :: l in layers <==> l == layers[0] || l in layers[1..];
      assert forall k :: 0 <= k < |rest| ==> rest[k] in rest;
    }
  }

  lemma {:induction false} SortedLayersFacts(layers: seq<nat>)
    ensures DescendingLayers(SortedLayers(layers))
    ensures forall l :: l in SortedLayers(layers) <==> l in layers
  {
    if layers != [] {
      SortedLayersFacts(layers[1..]);
      InsertLayerFacts(layers[0], SortedLayers(layers[1..]));
      assert forall l :: l in layers <==> l == layers[0] || l in layers[1..];
    }
  }

  lemma {:induction false} EligibleFacts(ms: seq<Meta>, entries: Entries, claimed: set<SegmentId>)
    requires DistinctMetas(ms)
    ensures Distinct(Eligible(ms, entries, claimed))
    ensures forall x :: x in Eligible(ms, entries, claimed) <==>
                        exists m :: m in ms && m.id in entries && m.id !in claimed && x == Sized(m, entries)
  {
    if ms != [] {
      var rest := Eligible(ms[1..], entries, claimed);
      EligibleFacts(ms[1..], entries, claimed);
      assert forall m :: m in ms <==> m == ms[0] || m in ms[1..];
      assert forall k :: 0 <= k < |rest| ==> rest[k] in rest;
    }
  }

  /** The items of that size, in order. */
  function OfSize(items: seq<Item>, size: nat): seq<Item> {
    if items == [] then []
    else (if items[0].adjusted == size then [items[0]] else []) + OfSize(items[1..], size)
  }

  lemma OfSizePrepend(x: Item, items: seq<Item>, size: nat)
    ensures OfSize([x] + items, size) == (if x.adjusted == size then [x] else []) + OfSize(items, size)
  {
    assert ([x] + items)[1..] == items;
  }

  lemma {:induction false} InsertBySizeIsStable(x: Item, items: seq<Item>, size: nat)
    ensures OfSize(InsertBySize(x, items), size) == OfSize([x] + items, size)
  {
    OfSizePrepend(x, items, size);
    if items != [] && items[0].adjusted > x.adjusted {
      var first, rest := items[0], items[1..];
      InsertBySizeIsStable(x, rest, size);
      OfSizePrepend(x, rest, size);
      OfSizePrepend(first, InsertBySize(x, rest), size);
    }
  }

  /** Items of the same size stay in order. */
  lemma {:induction false} SortedBySizeIsStable(items: seq<Item>, size: nat)
    ensures OfSize(SortedBySize(items), size) == OfSize(items, size)
  {
    if items != [] {
      var first, rest := items[0], items[1..];
      assert items == [first] + rest;
      SortedBySizeIsStable(rest, size);
      InsertBySizeIsStable(first, SortedBySize(rest), size);
      OfSizePrepend(first, SortedBySize(rest), size);
      OfSizePrepend(first, rest, size);
    }
  }

  lemma CollectFacts(ms: seq<Meta>, entries: Entries, claimed: set<SegmentId>)
    requires DistinctMetas(ms)
    ensures Distinct(Collect(ms, entries, claimed)) && Descending(Collect(ms, entries, claimed))
    ensures forall x :: x in Collect(ms, entries, claimed) <==>
                        exists m :: m in ms && m.id in entries && m.id !in claimed && x == Sized(m, entries)
  {
    EligibleFacts(ms, entries, claimed);
    SortedBySizeFacts(Eligible(ms, entries, claimed));
  }

  // ---------- One layer ----------

  /** The items that fit a layer, in order. */
  function Fitting(items: seq<Item>, layer: nat): seq<Item> {
    if items == [] then []
    else if items[0].adjusted > layer then Fitting(items[1..], layer)
    else [items[0]] + Fitting(items[1..], layer)
  }

  /** The bin that is still open at the end. */
  function OpenBin(items: seq<Item>, layer: nat, bin: seq<Item>): seq<Item> {
    if items == [] then bin
    else if items[0].adjusted > layer then OpenBin(items[1..], layer, bin)
    else if Total(bin) + items[0].actual >= Extended(layer) then OpenBin(items[1..], layer, [])
    else OpenBin(items[1..], layer, bin + [items[0]])
  }

  function Concat(bins: seq<seq<Item>>): seq<Item> {
    if bins == [] then [] else bins[0] + Concat(bins[1..])
  }

  /** The closed bins and the open one split the fitting items, in order and without losing any. */
  lemma {:induction false} BinsSplitFitting(items: seq<Item>, layer: nat, bin: seq<Item>)
    ensures Concat(Bins(items, layer, bin)) + OpenBin(items, layer, bin) == bin + Fitting(items, layer)
  {
    if items == [] {
    } else if items[0].adjusted > layer {
      BinsSplitFitting(items[1..], layer, bin);
    } else if Total(bin) + items[0].actual >= Extended(layer) {
      BinsSplitFitting(items[1..], layer, []);
      var closed, rest, left := bin + [items[0]], Bins(items[1..], layer, []), OpenBin(items[1..], layer, []);
      assert Concat([closed] + rest) == closed + Concat(rest) by {
        assert ([closed] + rest)[1..] == rest;
      }
      assert (closed + Concat(rest)) + left == closed + (Concat(rest) + left);
      assert bin + ([items[0]] + Fitting(items[1..], layer)) == closed + Fitting(items[1..], layer);
    } else {
      BinsSplitFitting(items[1..], layer, bin + [items[0]]);
      assert bin + [items[0]] + Fitting(items[1..], layer) == bin + Fitting(items, layer);
    }
  }

  lemma {:induction false} OpenBinIsSmall(items: seq<Item>, layer: nat, bin: seq<Item>)
    requires Total(bin) < Extended(layer)
    ensures Total(OpenBin(items, layer, bin)) < Extended(layer)
  {
    if items == [] {
    } else if items[0].adjusted > layer {
      OpenBinIsSmall(items[1..], layer, bin);
    } else if Total(bin) + items[0].actual >= Extended(layer) {
      OpenBinIsSmall(items[1..], layer, []);
    } else {
      assert (bin + [items[0]])[..|bin|] == bin;
      OpenBinIsSmall(items[1..], layer, bin + [items[0]]);
    }
  }

  /** A closed bin reaches four thirds of the layer size, and only with its last member. */
  ghost predicate Full(bin: seq<Item>, layer: nat) {
    && bin != []
    && Total(bin) >= 4 * layer / 3
    && Total(bin[..|bin| - 1]) < 4 * layer / 3
  }

  lemma {:induction false} BinsAreFull(items: seq<Item>, layer: nat, bin: seq<Item>)
    requires Total(bin) < Extended(layer)
    ensures forall k :: 0 <= k < |Bins(items, layer, bin)| ==> Full(Bins(items, layer, bin)[k], layer)
  {
    if items == [] {
    } else if items[0].adjusted > layer {
      BinsAreFull(items[1..], layer, bin);
    } else {
      assert (bin + [items[0]])[..|bin|] == bin;
      if Total(bin) + items[0].actual >= Extended(layer) {
        BinsAreFull(items[1..], layer, []);
      } else {
        BinsAreFull(items[1..], layer, bin + [items[0]]);
      }
    }
  }

  lemma {:induction false} FittingMembers(items: seq<Item>, layer: nat)
    ensures forall x :: x in Fitting(items, layer) <==> x in items && x.adjusted <= layer
  {
    if items != [] {
      FittingMembers(items[1..], layer);
      assert items == [items[0]] + items[1..];
    }
  }

  lemma {:induction false} FittingKeepsOrder(items: seq<Item>, layer: nat)
    requires Descending(items)
    ensures Descending(Fitting(items, layer))
  {
    if items != [] {
      FittingKeepsOrder(items[1..], layer);
      FittingMembers(items[1..], layer);
      var rest := Fitting(items[1..], layer);
      assert forall k :: 0 <= k < |rest| ==> rest[k] in rest && rest[k] in items[1..];
      assert forall x :: x in items[1..] ==> x.adjusted <= items[0].adjusted;
    }
  }

  lemma {:induction false} FittingKeepsDistinct(items: seq<Item>, layer: nat)
    requires Distinct(items)
    ensures Distinct(Fitting(items, layer))
  {
    if items != [] {
      FittingKeepsDistinct(items[1..], layer);
      FittingMembers(items[1..], layer);
      var rest := Fitting(items[1..], layer);
      assert forall k :: 0 <= k < |rest| ==> rest[k] in rest && rest[k] in items[1..];
      assert forall x :: x in items[1..] ==> x.id != items[0].id;
    }
  }

  function Offset(bins: seq<seq<Item>>, k: nat): nat
    requires k <= |bins|
  {
    if k == 0 then 0 else Offset(bins, k - 1) + |bins[k - 1]|
  }

  lemma {:induction false} OffsetShift(bins: seq<seq<Item>>, k: nat)
    requires 0 < k <= |bins|
    ensures Offset(bins, k) == |bins[0]| + Offset(bins[1..], k - 1)
  {
    if k > 1 {
      OffsetShift(bins, k - 1);
    }
  }

  lemma {:induction false} OffsetGrows(bins: seq<seq<Item>>, k: nat, l: nat)
    requires k <= l <= |bins|
    ensures Offset(bins, k) <= Offset(bins, l)
  {
    if k < l {
      OffsetGrows(bins, k, l - 1);
    }
  }

  /** Each bin is a stretch of the concatenation. */
  lemma {:induction false} BinIsStretch(bins: seq<seq<Item>>, k: nat)
    requires k < |bins|
    ensures Offset(bins, k + 1) <= |Concat(bins)|
    ensures Concat(bins)[Offset(bins, k)..Offset(bins, k + 1)] == bins[k]
  {
    OffsetShift(bins, k + 1);
    if k > 0 {
      OffsetShift(bins, k);
      BinIsStretch(bins[1..], k - 1);
    }
  }

  lemma {:induction false} InConcat(bins: seq<seq<Item>>, i: nat) returns (k: nat)
    requires i < |Concat(bins)|
    ensures k < |bins| && Concat(bins)[i] in bins[k]
  {
    if i < |bins[0]| {
      k := 0;
    } else {
      k := InConcat(bins[1..], i - |bins[0]|);
      k := k + 1;
    }
  }

  /** What one layer builds: full, disjoint bins of the items that fit, largest first, leaving only an
      open bin's worth behind. */
  ghost predicate GoodBins(items: seq<Item>, layer: nat, bins: seq<seq<Item>>) {
    && (forall k :: 0 <= k < |bins| ==> Full(bins[k], layer) && Distinct(bins[k]) && Descending(bins[k]))
    && (forall k, x :: 0 <= k < |bins| && x in bins[k] ==> x in items && x.adjusted <= layer)
    && (forall k, l, x, y :: 0 <= k < l < |bins| && x in bins[k] && y in bins[l] ==> x.id != y.id)
  }

  /** Bin `k` is the stretch of the fitting items from `from` on. */
  lemma BinInFitting(items: seq<Item>, layer: nat, k: nat) returns (from: nat)
    requires k < |Bins(items, layer, [])|
    ensures var bin := Bins(items, layer, [])[k];
            from == Offset(Bins(items, layer, []), k) && from + |bin| <= |Fitting(items, layer)| &&
            bin == Fitting(items, layer)[from..from + |bin|]
  {
    var bins := Bins(items, layer, []);
    from := Offset(bins, k);
    BinsSplitFitting(items, layer, []);
    BinIsStretch(bins, k);
    assert Fitting(items, layer) == Concat(bins) + OpenBin(items, layer, []);
  }

  lemma BinIsGood(items: seq<Item>, layer: nat, k: nat)
    requires Distinct(items) && Descending(items) && k < |Bins(items, layer, [])|
    ensures var bin := Bins(items, layer, [])[k];
            Distinct(bin) && Descending(bin) && forall x :: x in bin ==> x in items && x.adjusted <= layer
  {
    FittingMembers(items, layer);
    FittingKeepsOrder(items, layer);
    FittingKeepsDistinct(items, layer);
    var from := BinInFitting(items, layer, k);
    var bin := Bins(items, layer, [])[k];
    assert forall i :: 0 <= i < |bin| ==> bin[i] == Fitting(items, layer)[from + i];
  }

  lemma StretchesAreDisjoint(all: seq<Item>, a: nat, b: nat, c: nat, d: nat, x: Item, y: Item)
    requires Distinct(all) && a <= b <= c <= d <= |all| && x in all[a..b] && y in all[c..d]
    ensures x.id != y.id
  {
    var i :| a <= i < b && all[i] == x;
    var j :| c <= j < d && all[j] == y;
  }

  lemma BinsAreDisjoint(items: seq<Item>, layer: nat, k: nat, l: nat, x: Item, y: Item)
    requires Distinct(items) && k < l < |Bins(items, layer, [])|
    requires x in Bins(items, layer, [])[k] && y in Bins(items, layer, [])[l]
    ensures x.id != y.id
  {
    var bins := Bins(items, layer, []);
    FittingKeepsDistinct(items, layer);
    var from := BinInFitting(items, layer, k);
    var from' := BinInFitting(items, layer, l);
    OffsetGrows(bins, k + 1, l);
    StretchesAreDisjoint(Fitting(items, layer), from, from + |bins[k]|, from', from' + |bins[l]|, x, y);
  }

  lemma BinsAreGood(items: seq<Item>, layer: nat)
    requires Distinct(items) && Descending(items) && layer > 0
    ensures GoodBins(items, layer, Bins(items, layer, []))
  {
    var bins := Bins(items, layer, []);
    BinsAreFull(items, layer, []);
    forall k | 0 <= k < |bins|
      ensures Distinct(bins[k]) && Descending(bins[k]) && forall x :: x in bins[k] ==> x in items && x.adjusted <= layer
    {
      BinIsGood(items, layer, k);
    }
    forall k, l, x: Item, y: Item | 0 <= k < l < |bins| && x in bins[k] && y in bins[l]
      ensures x.id != y.id
    {
      BinsAreDisjoint(items, layer, k, l, x, y);
    }
  }

  // ---------- What is left behind ----------

  lemma TotalOfAppend(items: seq<Item>, x: Item)
    ensures Total(items + [x]) == Total(items) + x.actual
  {
    assert (items + [x])[..|items|] == items;
  }

  lemma {:induction false} TotalOfRemove(items: seq<Item>, i: nat)
    requires i < |items|
    ensures Total(items) == Total(items[..i] + items[i + 1..]) + items[i].actual
  {
    var n := |items| - 1;
    if i == n {
      assert items[..i] + items[i + 1..] == items[..n];
    } else {
      TotalOfRemove(items[..n], i);
      var shorter := items[..n];
      assert items[..i] + items[i + 1..] == (shorter[..i] + shorter[i + 1..]) + [items[n]];
      TotalOfAppend(shorter[..i] + shorter[i + 1..], items[n]);
    }
  }

  /** Distinct items drawn from a list weigh at most as much as the list. */
  lemma {:induction false} TotalOfSome(xs: seq<Item>, items: seq<Item>)
    requires Distinct(xs) && forall x :: x in xs ==> x in items
    ensures Total(xs) <= Total(items)
  {
    if xs != [] {
      var n := |xs| - 1;
      assert xs[n] in items;
      var i :| 0 <= i < |items| && items[i] == xs[n];
      var rest := items[..i] + items[i + 1..];
      forall x | x in xs[..n]
        ensures x in rest
      {
        assert x.id != xs[n].id && x in xs && x in items;
        var j :| 0 <= j < |items| && items[j] == x;
        assert x == if j < i then rest[j] else rest[j - 1];
      }
      TotalOfSome(xs[..n], rest);
      TotalOfRemove(items, i);
    }
  }

  /** What a layer leaves behind weighs less than a bin. */
  lemma LayerLeavesLittle(items: seq<Item>, layer: nat, xs: seq<Item>)
    requires Distinct(items) && Distinct(xs) && layer > 0
    requires forall x :: x in xs ==> x in items && x.adjusted <= layer
    requires forall x, k :: x in xs && 0 <= k < |Bins(items, layer, [])| ==> x !in Bins(items, layer, [])[k]
    ensures Total(xs) < 4 * layer / 3
  {
    var bins := Bins(items, layer, []);
    var left := OpenBin(items, layer, []);
    BinsSplitFitting(items, layer, []);
    FittingMembers(items, layer);
    OpenBinIsSmall(items, layer, []);
    forall x | x in xs
      ensures x in left
    {
      var all := Concat(bins) + left;
      assert x in all;
      var i :| 0 <= i < |all| && all[i] == x;
      if i < |Concat(bins)| {
        var k := InConcat(bins, i);
        assert false;
      }
    }
    TotalOfSome(xs, left);
  }

  /** A list that weighs less than a bin fills none. */
  lemma {:induction false} LittleFillsNoBin(items: seq<Item>, layer: nat, bin: seq<Item>)
    requires Total(bin + Fitting(items, layer)) < Extended(layer)
    ensures Bins(items, layer, bin) == []
  {
    if items == [] {
    } else if items[0].adjusted > layer {
      LittleFillsNoBin(items[1..], layer, bin);
    } else {
      TotalOfAppend(bin, items[0]);
      var whole := bin + Fitting(items, layer);
      assert whole == (bin + [items[0]]) + Fitting(items[1..], layer);
      TotalOfPrefix(bin + [items[0]], whole);
      LittleFillsNoBin(items[1..], layer, bin + [items[0]]);
    }
  }

  lemma {:induction false} TotalOfPrefix(xs: seq<Item>, items: seq<Item>)
    requires xs <= items
    ensures Total(xs) <= Total(items)
  {
    if |xs| < |items| {
      TotalOfPrefix(xs, items[..|items| - 1]);
    } else {
      assert xs == items;
    }
  }

  // ---------- The whole plan ----------

  /** `x` is one of the given segments, and one the policy may merge. */
  ghost predicate FromGiven(x: Item, ms: seq<Meta>, entries: Entries) {
    exists m :: m in ms && m.id in entries && x == Sized(m, entries)
  }

  /** A candidate of a layer: distinct mergeable segments that fit the layer, largest first, which
      reach four thirds of its size only together. */
  ghost predicate LayerCandidate(c: Candidate, ms: seq<Meta>, entries: Entries) {
    && Full(c.members, c.layer) && Distinct(c.members) && Descending(c.members)
    && (forall x :: x in c.members ==> FromGiven(x, ms, entries) && x.adjusted <= c.layer)
  }

  ghost predicate Disjoint(candidates: seq<Candidate>) {
    forall k, l :: 0 <= k < l < |candidates| ==> IdsOf(candidates[k]) !! IdsOf(candidates[l])
  }

  ghost predicate LargestLayersFirst(candidates: seq<Candidate>) {
    forall k, l :: 0 <= k < l < |candidates| ==> candidates[k].layer >= candidates[l].layer
  }

  ghost predicate PositiveLayers(layers: seq<nat>) {
    forall l :: l in layers ==> l > 0
  }

  ghost predicate GoodLayerPlan(plan: seq<Candidate>, ms: seq<Meta>, entries: Entries, layers: seq<nat>, claimed: set<SegmentId>) {
    && (forall k :: 0 <= k < |plan| ==> plan[k].layer in layers && LayerCandidate(plan[k], ms, entries) && IdsOf(plan[k]) !! claimed)
    && LargestLayersFirst(plan)
    && Disjoint(plan)
  }

  lemma OneLayerIsGood(ms: seq<Meta>, entries: Entries, layer: nat, claimed: set<SegmentId>)
    requires DistinctMetas(ms) && layer > 0
    ensures GoodLayerPlan(Tagged(layer, Bins(Collect(ms, entries, claimed), layer, [])), ms, entries, [layer], claimed)
  {
    var items := Collect(ms, entries, claimed);
    var bins := Bins(items, layer, []);
    var plan := Tagged(layer, bins);
    CollectFacts(ms, entries, claimed);
    BinsAreGood(items, layer);
    forall k | 0 <= k < |plan|
      ensures LayerCandidate(plan[k], ms, entries) && IdsOf(plan[k]) !! claimed
    {
      assert plan[k].members == bins[k];
      assert forall x :: x in bins[k] ==> x in items && FromGiven(x, ms, entries) && x.id !in claimed;
    }
    forall k, l | 0 <= k < l < |plan|
      ensures IdsOf(plan[k]) !! IdsOf(plan[l])
    {
      assert plan[k].members == bins[k] && plan[l].members == bins[l];
    }
  }

  lemma {:induction false} LayerPlanIsGood(ms: seq<Meta>, entries: Entries, layers: seq<nat>, claimed: set<SegmentId>)
    requires DistinctMetas(ms) && DescendingLayers(layers) && PositiveLayers(layers)
    ensures GoodLayerPlan(LayerPlan(ms, entries, layers, claimed), ms, entries, layers, claimed)
  {
    if layers != [] {
      assert layers[0] in layers && forall l :: l in layers[1..] ==> l in layers;
      var head := Tagged(layers[0], Bins(Collect(ms, entries, claimed), layers[0], []));
      var tail := LayerPlan(ms, entries, layers[1..], claimed + Members(head));
      OneLayerIsGood(ms, entries, layers[0], claimed);
      LayerPlanIsGood(ms, entries, layers[1..], claimed + Members(head));
      PlansAppend(head, tail, claimed);
      LayersAppend(head, tail, layers);
    }
  }

  lemma LayersAppend(head: seq<Candidate>, tail: seq<Candidate>, layers: seq<nat>)
    requires layers != [] && DescendingLayers(layers) && LargestLayersFirst(tail)
    requires forall k :: 0 <= k < |head| ==> head[k].layer == layers[0]
    requires forall k :: 0 <= k < |tail| ==> tail[k].layer in layers[1..]
    ensures LargestLayersFirst(head + tail)
  {
    assert forall k :: 0 <= k < |tail| ==> tail[k].layer <= layers[0];
  }

  lemma PlansAppend(head: seq<Candidate>, tail: seq<Candidate>, claimed: set<SegmentId>)
    requires Disjoint(head) && Disjoint(tail)
    requires forall k :: 0 <= k < |tail| ==> IdsOf(tail[k]) !! claimed + Members(head)
    ensures Disjoint(head + tail)
  {
    var plan := head + tail;
    forall k, l | 0 <= k < l < |plan|
      ensures IdsOf(plan[k]) !! IdsOf(plan[l])
    {
      if k < |head| <= l {
        assert plan[l] == tail[l - |head|];
        assert IdsOf(head[k]) <= Members(head);
      }
    }
  }

  lemma MembersOfAppend(head: seq<Candidate>, tail: seq<Candidate>)
    ensures Members(head + tail) == Members(head) + Members(tail)
  {
    var plan := head + tail;
    assert forall k :: 0 <= k < |head| ==> plan[k] == head[k];
    assert forall k :: 0 <= k < |tail| ==> plan[|head| + k] == tail[k];
  }

  /** After every layer, the unclaimed segments that fit it weigh less than four thirds of its size. */
  lemma {:induction false} LayerPlanLeavesLittle(ms: seq<Meta>, entries: Entries, layers: seq<nat>, claimed: set<SegmentId>,
                                                 layer: nat, xs: seq<Item>)
    requires DistinctMetas(ms) && PositiveLayers(layers) && layer in layers
    requires Distinct(xs)
    requires forall x :: x in xs ==> FromGiven(x, ms, entries) && x.adjusted <= layer && x.id !in claimed
    requires forall x :: x in xs ==> x.id !in Members(LayerPlan(ms, entries, layers, claimed))
    ensures Total(xs) < 4 * layer / 3
  {
    var items := Collect(ms, entries, claimed);
    var bins := Bins(items, layers[0], []);
    var head := Tagged(layers[0], bins);
    var tail := LayerPlan(ms, entries, layers[1..], claimed + Members(head));
    assert LayerPlan(ms, entries, layers, claimed) == head + tail;
    MembersOfAppend(head, tail);
    if layer == layers[0] {
      CollectFacts(ms, entries, claimed);
      forall x, k | x in xs && 0 <= k < |bins|
        ensures x !in bins[k]
      {
        assert head[k].members == bins[k] && IdsOf(head[k]) <= Members(head);
      }
      LayerLeavesLittle(items, layer, xs);
    } else {
      assert forall l :: l in layers <==> l == layers[0] || l in layers[1..];
      LayerPlanLeavesLittle(ms, entries, layers[1..], claimed + Members(head), layer, xs);
    }
  }

  /** The given mutable segments, each once, in the order the hash map yields them. */
  ghost predicate IsMutables(mutables: seq<Item>, ms: seq<Meta>, entries: Entries) {
    && Distinct(mutables)
    && forall x :: x in mutables <==> FromGiven(x, ms, entries) && entries[x.id].mutable
  }

  ghost predicate NoMutable(c: Candidate, entries: Entries) {
    forall x :: x in c.members ==> x.id in entries && !entries[x.id].mutable
  }

  /** Every candidate of the plan is a mutable segment on its own or a candidate of a layer; the
      candidates share no segment; layers come largest first, and no layer claims a mutable segment. */
  ghost predicate GoodPlan(plan: seq<Candidate>, ms: seq<Meta>, entries: Entries, layers: seq<nat>, mutables: seq<Item>) {
    && Disjoint(plan)
    && |mutables| <= |plan|
    && plan[..|mutables|] == Singles(mutables)
    && LargestLayersFirst(plan[|mutables|..])
    && (forall k :: |mutables| <= k < |plan| ==>
          plan[k].layer in layers && LayerCandidate(plan[k], ms, entries) && NoMutable(plan[k], entries))
  }

  lemma PlanIsGood(ms: seq<Meta>, entries: Entries, layers: seq<nat>, mutables: seq<Item>)
    requires DistinctMetas(ms) && PositiveLayers(layers) && IsMutables(mutables, ms, entries)
    ensures GoodPlan(Plan(ms, entries, layers, mutables), ms, entries, layers, mutables)
  {
    var singles := Singles(mutables);
    var rest := LayerPlan(ms, entries, SortedLayers(layers), Members(singles));
    var plan := singles + rest;
    SortedLayersFacts(layers);
    LayerPlanIsGood(ms, entries, SortedLayers(layers), Members(singles));
    assert plan[..|mutables|] == singles && plan[|mutables|..] == rest;
    SinglesFacts(mutables);
    PlansAppend(singles, rest, {});
    forall k | 0 <= k < |rest|
      ensures NoMutable(rest[k], entries)
    {
      forall x | x in rest[k].members
        ensures x.id in entries && !entries[x.id].mutable
      {
        assert FromGiven(x, ms, entries) && x.id in IdsOf(rest[k]);
      }
    }
  }

  lemma SinglesFacts(items: seq<Item>)
    ensures forall x :: x in items ==> x.id in Members(Singles(items))
    ensures Distinct(items) ==> Disjoint(Singles(items))
  {
    var singles := Singles(items);
    forall x | x in items
      ensures x.id in Members(singles)
    {
      var k :| 0 <= k < |items| && items[k] == x;
      assert x in singles[k].members && x.id in IdsOf(singles[k]);
    }
    assert forall k :: 0 <= k < |items| ==> IdsOf(singles[k]) == {items[k].id};
  }

  /** Before short candidates are pruned, the unclaimed segments that fit a layer weigh less than four
      thirds of its size. */
  lemma PlanLeavesLittle(ms: seq<Meta>, entries: Entries, layers: seq<nat>, mutables: seq<Item>, layer: nat, xs: seq<Item>)
    requires DistinctMetas(ms) && PositiveLayers(layers) && layer in layers
    requires Distinct(xs)
    requires forall x :: x in xs ==> FromGiven(x, ms, entries) && x.adjusted <= layer
    requires forall x :: x in xs ==> x.id !in Members(Plan(ms, entries, layers, mutables))
    ensures Total(xs) < 4 * layer / 3
  {
    var singles := Singles(mutables);
    var rest := LayerPlan(ms, entries, SortedLayers(layers), Members(singles));
    SortedLayersFacts(layers);
    MembersOfAppend(singles, rest);
    LayerPlanLeavesLittle(ms, entries, SortedLayers(layers), Members(singles), layer, xs);
  }

  /** Whatever fits a layer weighs less than four thirds of its size. */
  ghost predicate Light(ms: seq<Meta>, entries: Entries, layer: nat) {
    forall xs :: Distinct(xs) && AllFit(xs, ms, entries, layer) ==> Total(xs) < 4 * layer / 3
  }

  ghost predicate AllFit(xs: seq<Item>, ms: seq<Meta>, entries: Entries, layer: nat) {
    forall x :: x in xs ==> FromGiven(x, ms, entries) && x.adjusted <= layer
  }

  lemma {:induction false} LightLayersPlanNothing(ms: seq<Meta>, entries: Entries, layers: seq<nat>)
    requires DistinctMetas(ms) && forall l :: l in layers ==> Light(ms, entries, l)
    ensures LayerPlan(ms, entries, layers, {}) == []
  {
    if layers != [] {
      var items := Collect(ms, entries, {});
      var fitting := Fitting(items, layers[0]);
      CollectFacts(ms, entries, {});
      FittingMembers(items, layers[0]);
      FittingKeepsDistinct(items, layers[0]);
      assert layers[0] in layers && AllFit(fitting, ms, entries, layers[0]);
      assert [] + fitting == fitting;
      LittleFillsNoBin(items, layers[0], []);
      assert {} + Members([]) == {};
      LightLayersPlanNothing(ms, entries, layers[1..]);
    }
  }

  /** So a fresh run over only the segments the plan left unclaimed plans nothing. */
  lemma PlanIsQuiescent(ms: seq<Meta>, entries: Entries, layers: seq<nat>, mutables: seq<Item>)
    requires DistinctMetas(ms) && PositiveLayers(layers) && IsMutables(mutables, ms, entries)
    ensures var left := entries - Members(Plan(ms, entries, layers, mutables));
            IsMutables([], ms, left) && Plan(ms, left, layers, []) == []
  {
    var plan := Plan(ms, entries, layers, mutables);
    var left := entries - Members(plan);
    SinglesFacts(mutables);
    MembersOfAppend(Singles(mutables), plan[|mutables|..]);
    assert plan == Singles(mutables) + plan[|mutables|..];
    forall x | FromGiven(x, ms, left)
      ensures FromGiven(x, ms, entries) && x.id !in Members(plan) && x.id in left && !left[x.id].mutable
    {
      var m :| m in ms && m.id in left && x == Sized(m, left);
      assert x == Sized(m, entries);
    }
    forall layer | layer in layers
      ensures Light(ms, left, layer)
    {
      forall xs | Distinct(xs) && AllFit(xs, ms, left, layer)
        ensures Total(xs) < 4 * layer / 3
      {
        PlanLeavesLittle(ms, entries, layers, mutables, layer, xs);
      }
    }
    SortedLayersFacts(layers);
    LightLayersPlanNothing(ms, left, SortedLayers(layers));
    assert Members(Singles([])) == {};
  }

  // ---------- Pruning short candidates ----------

  /** A candidate survives if it converts one mutable segment or has enough members. */
  predicate Keep(c: Candidate, entries: Entries, minMergeCount: nat) {
    || (|c.members| == 1 && c.members[0].id in entries && entries[c.members[0].id].mutable)
    || |c.members| >= minMergeCount
  }

  function Pruned(candidates: seq<Candidate>, entries: Entries, minMergeCount: nat): seq<Candidate> {
    if candidates == [] then []
    else if Keep(candidates[0], entries, minMergeCount) then [candidates[0]] + Pruned(candidates[1..], entries, minMergeCount)
    else Pruned(candidates[1..], entries, minMergeCount)
  }

  lemma {:induction false} PrunedAppend(a: seq<Candidate>, b: seq<Candidate>, entries: Entries, minMergeCount: nat)
    ensures Pruned(a + b, entries, minMergeCount) == Pruned(a, entries, minMergeCount) + Pruned(b, entries, minMergeCount)
  {
    if a == [] {
      assert a + b == b;
    } else {
      assert (a + b)[1..] == a[1..] + b;
      PrunedAppend(a[1..], b, entries, minMergeCount);
    }
  }

  lemma {:induction false} PrunedKeepsAll(candidates: seq<Candidate>, entries: Entries, minMergeCount: nat)
    requires forall k :: 0 <= k < |candidates| ==> Keep(candidates[k], entries, minMergeCount)
    ensures Pruned(candidates, entries, minMergeCount) == candidates
  {
    if candidates != [] {
      PrunedKeepsAll(candidates[1..], entries, minMergeCount);
    }
  }

  lemma {:induction false} PrunedIsPart(candidates: seq<Candidate>, entries: Entries, minMergeCount: nat)
    ensures forall c :: c in Pruned(candidates, entries, minMergeCount) <==>
                        c in candidates && Keep(c, entries, minMergeCount)
  {
    if candidates != [] {
      PrunedIsPart(candidates[1..], entries, minMergeCount);
      assert candidates == [candidates[0]] + candidates[1..];
    }
  }

  /** The remove-and-restart loop is an order-preserving filter. */
  method PruneShort(built: seq<Candidate>, entries: Entries, minMergeCount: nat) returns (candidates: seq<Candidate>)
    ensures candidates == Pruned(built, entries, minMergeCount)
  {
    candidates := built;
    label outer:
    while candidates != []
      invariant Pruned(candidates, entries, minMergeCount) == Pruned(built, entries, minMergeCount)
      decreases |candidates|
    {
      for i := 0 to |candidates|
        invariant forall k :: 0 <= k < i ==> Keep(candidates[k], entries, minMergeCount)
      {
        var members := candidates[i].members;
        if |members| == 1 {
          var id := members[0].id;
          if id in entries && entries[id].mutable {
            continue;
          }
        }
        if |members| < minMergeCount {
          PrunedRemove(candidates, i, entries, minMergeCount);
          candidates := candidates[..i] + candidates[i + 1..];
          continue outer;
        }
      }
      PrunedKeepsAll(candidates, entries, minMergeCount);
      break;
    }
  }

  lemma PrunedRemove(candidates: seq<Candidate>, i: nat, entries: Entries, minMergeCount: nat)
    requires i < |candidates| && !Keep(candidates[i], entries, minMergeCount)
    ensures Pruned(candidates, entries, minMergeCount) == Pruned(candidates[..i] + candidates[i + 1..], entries, minMergeCount)
  {
    assert candidates == candidates[..i] + candidates[i..];
    PrunedAppend(candidates[..i], candidates[i..], entries, minMergeCount);
    PrunedAppend(candidates[..i], candidates[i + 1..], entries, minMergeCount);
    assert candidates[i..][1..] == candidates[i + 1..];
  }

  /** A segment that fits a layer without its deleted documents, but fills a candidate all by itself. */
  predicate Heavy(x: Item, layer: nat) {
    x.adjusted <= layer && 4 * layer / 3 <= x.actual
  }

  /** A candidate of a layer has one member exactly when its first is heavy. */
  lemma SingleIffHeavy(c: Candidate, ms: seq<Meta>, entries: Entries)
    requires LayerCandidate(c, ms, entries)
    ensures |c.members| == 1 <==> Heavy(c.members[0], c.layer)
  {
    assert c.members[0] in c.members;
    var front := c.members[..|c.members| - 1];
    if |c.members| == 1 {
      assert front == [];
    } else {
      TotalOfFirst(front);
      assert front[0] == c.members[0];
    }
  }

  lemma {:induction false} TotalOfFirst(items: seq<Item>)
    requires items != []
    ensures items[0].actual <= Total(items)
  {
    if 1 < |items| {
      TotalOfFirst(items[..|items| - 1]);
    }
  }

  /** Exactly when pruning removes nothing: no candidate of a layer starts with a heavy segment. */
  lemma NothingPrunedIff(ms: seq<Meta>, entries: Entries, layers: seq<nat>, mutables: seq<Item>)
    requires DistinctMetas(ms) && PositiveLayers(layers) && IsMutables(mutables, ms, entries)
    ensures var plan := Plan(ms, entries, layers, mutables);
            && |mutables| <= |plan| && (forall k :: |mutables| <= k < |plan| ==> plan[k].members != [])
            && (Pruned(plan, entries, 2) == plan <==>
                forall k :: |mutables| <= k < |plan| ==> !Heavy(plan[k].members[0], plan[k].layer))
  {
    var plan := Plan(ms, entries, layers, mutables);
    PlanIsGood(ms, entries, layers, mutables);
    forall k | 0 <= k < |plan|
      ensures plan[k].members != []
      ensures Keep(plan[k], entries, 2) <==> k < |mutables| || !Heavy(plan[k].members[0], plan[k].layer)
    {
      if k < |mutables| {
        assert plan[k] == plan[..|mutables|][k] && mutables[k] in mutables;
      } else {
        SingleIffHeavy(plan[k], ms, entries);
        assert plan[k].members[0] in plan[k].members;
      }
    }
    PrunedKeepsAllIff(plan, entries, 2);
  }

  lemma {:induction false} PrunedKeepsAllIff(candidates: seq<Candidate>, entries: Entries, minMergeCount: nat)
    ensures |Pruned(candidates, entries, minMergeCount)| <= |candidates|
    ensures Pruned(candidates, entries, minMergeCount) == candidates <==>
            forall k :: 0 <= k < |candidates| ==> Keep(candidates[k], entries, minMergeCount)
  {
    if candidates != [] {
      PrunedKeepsAllIff(candidates[1..], entries, minMergeCount);
      assert candidates == [candidates[0]] + candidates[1..];
      var rest := candidates[1..];
      assert (forall k :: 0 <= k < |candidates| ==> Keep(candidates[k], entries, minMergeCount)) <==>
             Keep(candidates[0], entries, minMergeCount) && forall k :: 0 <= k < |rest| ==> Keep(rest[k], entries, minMergeCount)
      by {
        assert forall k :: 0 <= k < |rest| ==> rest[k] == candidates[k + 1];
        assert forall k :: 0 < k < |candidates| ==> candidates[k] == rest[k - 1];
      }
    }
  }

  /** So nothing is pruned if no given immutable segment is heavy for any layer. */
  lemma NothingPruned(ms: seq<Meta>, entries: Entries, layers: seq<nat>, mutables: seq<Item>)
    requires DistinctMetas(ms) && PositiveLayers(layers) && IsMutables(mutables, ms, entries)
    requires forall m, l :: m in ms && m.id in entries && !entries[m.id].mutable && l in layers ==> !Heavy(Sized(m, entries), l)
    ensures Pruned(Plan(ms, entries, layers, mutables), entries, 2) == Plan(ms, entries, layers, mutables)
  {
    var plan := Plan(ms, entries, layers, mutables);
    PlanIsGood(ms, entries, layers, mutables);
    NothingPrunedIff(ms, entries, layers, mutables);
    forall k | |mutables| <= k < |plan|
      ensures !Heavy(plan[k].members[0], plan[k].layer)
    {
      var x := plan[k].members[0];
      assert x in plan[k].members && FromGiven(x, ms, entries);
    }
  }

  /** A segment without deleted documents is heavy for a layer of three bytes or more exactly when it
      has no documents at all, but as many bytes as a candidate needs. */
  lemma UndeletedIsHeavyIff(m: Meta, entries: Entries, layer: nat)
    requires m.id in entries && entries[m.id].numDeleted == 0 && entries[m.id].numDocs == m.numDocs && 3 <= layer
    ensures Heavy(Sized(m, entries), layer) <==> m.numDocs == 0 && 4 * layer / 3 <= entries[m.id].byteSize
  {
  }

  /** A segment that is mutable, or holds documents of which none is deleted. */
  predicate Undeleted(m: Meta, entries: Entries) {
    m.id in entries && !entries[m.id].mutable ==>
      entries[m.id].numDeleted == 0 && entries[m.id].numDocs > 0 && m.numDocs > 0
  }

  lemma UndeletedCandidateHasTwo(c: Candidate, ms: seq<Meta>, entries: Entries)
    requires LayerCandidate(c, ms, entries) && NoMutable(c, entries) && c.layer >= 3
    requires forall m :: m in ms ==> Undeleted(m, entries)
    ensures |c.members| >= 2
  {
    var first := c.members[0];
    assert first in c.members && FromGiven(first, ms, entries);
    SingleIffHeavy(c, ms, entries);
  }

  /** Without deleted documents, and with a document in every immutable segment, layers of at least
      three bytes prune nothing. */
  lemma UndeletedPrunesNothing(ms: seq<Meta>, entries: Entries, layers: seq<nat>, mutables: seq<Item>)
    requires DistinctMetas(ms) && IsMutables(mutables, ms, entries)
    requires forall l :: l in layers ==> l >= 3
    requires forall m :: m in ms ==> Undeleted(m, entries)
    ensures Pruned(Plan(ms, entries, layers, mutables), entries, 2) == Plan(ms, entries, layers, mutables)
  {
    NothingPruned(ms, entries, layers, mutables);
  }

  /** A heavy segment on its own is planned, and pruned. */
  lemma HeavySegmentIsPruned(m: Meta, entries: Entries, layer: nat)
    requires m.id in entries && !entries[m.id].mutable && Heavy(Sized(m, entries), layer)
    ensures Plan([m], entries, [layer], []) == [Candidate(layer, [Sized(m, entries)])]
    ensures Pruned(Plan([m], entries, [layer], []), entries, 2) == []
  {
    var x := Sized(m, entries);
    assert SortedLayers([layer]) == [layer] by {
      assert SortedLayers([]) == [];
    }
    assert Collect([m], entries, {}) == [x] by {
      assert Eligible([], entries, {}) == [];
      assert Eligible([m], entries, {}) == [x];
      assert SortedBySize([]) == [];
    }
    OneHeavyBin(x, layer);
    assert LayerPlan([m], entries, [layer], {}) == Tagged(layer, [[x]]) + LayerPlan([m], entries, [], Members(Tagged(layer, [[x]])));
    assert Singles([]) == [] && Members([]) == {};
    assert Tagged(layer, [[x]]) == [Candidate(layer, [x])];
    assert Plan([m], entries, [layer], []) == [] + LayerPlan([m], entries, [layer], {}) == [Candidate(layer, [x])];
  }

  lemma OneHeavyBin(x: Item, layer: nat)
    requires Heavy(x, layer)
    ensures Bins([x], layer, []) == [[x]]
  {
    assert [x][1..] == [];
    assert [] + [x] == [x];
    assert Bins([], layer, []) == [];
  }

  /** Such as one without any document, deleted or not. */
  lemma EmptySegmentIsPruned()
    ensures Pruned(Plan([Meta(1, 0)], map[1 := Entry(4, 0, 0, false)], [3], []), map[1 := Entry(4, 0, 0, false)], 2) == []
    ensures Plan([Meta(1, 0)], map[1 := Entry(4, 0, 0, false)], [3], []) != []
  {
    HeavySegmentIsPruned(Meta(1, 0), map[1 := Entry(4, 0, 0, false)], 3);
  }

  // ---------- A second run after pruning ----------

  /** The items whose segments are not in `gone`. */
  function Without(items: seq<Item>, gone: set<SegmentId>): seq<Item> {
    if items == [] then []
    else if items[0].id in gone then Without(items[1..], gone)
    else [items[0]] + Without(items[1..], gone)
  }

  lemma {:induction false} WithoutOfAppend(items: seq<Item>, x: Item, gone: set<SegmentId>)
    ensures Without(items + [x], gone) == Without(items, gone) + if x.id in gone then [] else [x]
  {
    if items != [] {
      assert (items + [x])[1..] == items[1..] + [x];
      WithoutOfAppend(items[1..], x, gone);
    }
  }

  lemma {:induction false} WithoutWeighsLess(items: seq<Item>, gone: set<SegmentId>)
    ensures Total(Without(items, gone)) <= Total(items)
  {
    if items != [] {
      var n := |items| - 1;
      assert items == items[..n] + [items[n]];
      WithoutWeighsLess(items[..n], gone);
      WithoutOfAppend(items[..n], items[n], gone);
      TotalOfAppend(Without(items[..n], gone), items[n]);
      assert Without(items[..n], gone) + [] == Without(items[..n], gone);
    }
  }

  lemma {:induction false} WithoutAllOrNothing(items: seq<Item>, gone: set<SegmentId>)
    ensures (forall x :: x in items ==> x.id in gone) ==> Without(items, gone) == []
    ensures (forall x :: x in items ==> x.id !in gone) ==> Without(items, gone) == items
  {
    if items != [] {
      WithoutAllOrNothing(items[1..], gone);
    }
  }

  lemma {:induction false} WithoutOfInsert(x: Item, items: seq<Item>, gone: set<SegmentId>)
    requires Descending(items)
    ensures Without(InsertBySize(x, items), gone) ==
            if x.id in gone then Without(items, gone) else InsertBySize(x, Without(items, gone))
  {
    if items == [] {
    } else if items[0].adjusted <= x.adjusted {
      assert ([x] + items)[1..] == items;
      WithoutMembers(items, gone);
      var rest := Without(items, gone);
      assert rest != [] ==> rest[0] in rest && rest[0].adjusted <= x.adjusted;
    } else {
      var rest := InsertBySize(x, items[1..]);
      assert ([items[0]] + rest)[1..] == rest;
      WithoutOfInsert(x, items[1..], gone);
    }
  }

  lemma {:induction false} WithoutMembers(items: seq<Item>, gone: set<SegmentId>)
    ensures forall x :: x in Without(items, gone) <==> x in items && x.id !in gone
  {
    if items != [] {
      WithoutMembers(items[1..], gone);
      assert items == [items[0]] + items[1..];
    }
  }

  lemma {:induction false} WithoutOfSort(items: seq<Item>, gone: set<SegmentId>)
    ensures Without(SortedBySize(items), gone) == SortedBySize(Without(items, gone))
  {
    if items != [] {
      WithoutOfSort(items[1..], gone);
      SortedBySizeFacts(items[1..]);
      WithoutOfInsert(items[0], SortedBySize(items[1..]), gone);
      if items[0].id !in gone {
        assert ([items[0]] + Without(items[1..], gone))[1..] == Without(items[1..], gone);
      }
    }
  }

  lemma {:induction false} WithoutOfEligible(ms: seq<Meta>, entries: Entries, claimed: set<SegmentId>, gone: set<SegmentId>)
    ensures Without(Eligible(ms, entries, claimed), gone) == Eligible(ms, entries - gone, claimed - gone)
  {
    if ms != [] {
      WithoutOfEligible(ms[1..], entries, claimed, gone);
      if ms[0].id in entries && ms[0].id !in claimed {
        var rest := Eligible(ms[1..], entries, claimed);
        assert ([Sized(ms[0], entries)] + rest)[1..] == rest;
      }
    }
  }

  /** Every bin is taken away whole or not at all. */
  ghost predicate AllOrNothing(bins: seq<seq<Item>>, gone: set<SegmentId>) {
    forall k :: 0 <= k < |bins| ==>
      (forall x :: x in bins[k] ==> x.id in gone) || (forall x :: x in bins[k] ==> x.id !in gone)
  }

  function BinsWithout(bins: seq<seq<Item>>, gone: set<SegmentId>): seq<seq<Item>> {
    if bins == [] then []
    else if exists x :: x in bins[0] && x.id in gone then BinsWithout(bins[1..], gone)
    else [bins[0]] + BinsWithout(bins[1..], gone)
  }

  /** Taking whole bins away from a layer, and anything of what it left behind, changes no other bin. */
  lemma {:induction false} BinsOfWithout(items: seq<Item>, layer: nat, bin: seq<Item>, gone: set<SegmentId>)
    requires AllOrNothing(Bins(items, layer, bin), gone)
    ensures Bins(Without(items, gone), layer, Without(bin, gone)) == BinsWithout(Bins(items, layer, bin), gone)
  {
    if items == [] {
    } else if items[0].adjusted > layer {
      BinsOfWithout(items[1..], layer, bin, gone);
    } else if Total(bin) + items[0].actual >= Extended(layer) {
      var closed := bin + [items[0]];
      var rest := Bins(items[1..], layer, []);
      var bins := Bins(items, layer, bin);
      assert bins == [closed] + rest && bins[0] == closed && bins[1..] == rest;
      assert AllOrNothing(rest, gone) by {
        assert forall k :: 0 <= k < |rest| ==> rest[k] == bins[k + 1];
      }
      BinsOfWithout(items[1..], layer, [], gone);
      assert items[0] in closed && forall x :: x in bin ==> x in closed;
      WithoutAllOrNothing(bin, gone);
    } else {
      BinsOfWithout(items[1..], layer, bin + [items[0]], gone);
      WithoutOfAppend(bin, items[0], gone);
      WithoutWeighsLess(bin, gone);
      assert Without(bin, gone) + [] == Without(bin, gone);
    }
  }

  /** The candidates that pruning removes. */
  function Dropped(candidates: seq<Candidate>, entries: Entries, minMergeCount: nat): seq<Candidate> {
    if candidates == [] then []
    else if Keep(candidates[0], entries, minMergeCount) then Dropped(candidates[1..], entries, minMergeCount)
    else [candidates[0]] + Dropped(candidates[1..], entries, minMergeCount)
  }

  lemma {:induction false} DroppedAppend(a: seq<Candidate>, b: seq<Candidate>, entries: Entries, minMergeCount: nat)
    ensures Dropped(a + b, entries, minMergeCount) == Dropped(a, entries, minMergeCount) + Dropped(b, entries, minMergeCount)
  {
    if a == [] {
      assert a + b == b;
    } else {
      assert (a + b)[1..] == a[1..] + b;
      DroppedAppend(a[1..], b, entries, minMergeCount);
    }
  }

  /** `gone` takes the kept candidates whole and touches no dropped one. */
  ghost predicate TakesKept(candidates: seq<Candidate>, entries: Entries, minMergeCount: nat, gone: set<SegmentId>) {
    forall k :: 0 <= k < |candidates| ==>
      && candidates[k].members != []
      && if Keep(candidates[k], entries, minMergeCount) then IdsOf(candidates[k]) <= gone else IdsOf(candidates[k]) !! gone
  }

  lemma {:induction false} MembersOfDropped(candidates: seq<Candidate>, entries: Entries, minMergeCount: nat, gone: set<SegmentId>)
    requires TakesKept(candidates, entries, minMergeCount, gone)
    ensures Members(Dropped(candidates, entries, minMergeCount)) == Members(candidates) - gone
  {
    if candidates != [] {
      var c, rest := candidates[0], candidates[1..];
      assert candidates == [c] + rest;
      assert forall k :: 0 <= k < |rest| ==> rest[k] == candidates[k + 1];
      MembersOfDropped(rest, entries, minMergeCount, gone);
      MembersOfAppend([c], rest);
      MembersOfAppend([c], Dropped(rest, entries, minMergeCount));
      assert Members([c]) == IdsOf(c);
    }
  }

  lemma KeptBinsGoWhole(layer: nat, bins: seq<seq<Item>>, entries: Entries, minMergeCount: nat, gone: set<SegmentId>)
    requires TakesKept(Tagged(layer, bins), entries, minMergeCount, gone)
    ensures AllOrNothing(bins, gone)
    ensures forall k :: 0 <= k < |bins| ==> ((exists x :: x in bins[k] && x.id in gone) <==> Keep(Tagged(layer, bins)[k], entries, minMergeCount))
  {
    forall k | 0 <= k < |bins|
      ensures (forall x :: x in bins[k] ==> x.id in gone) || (forall x :: x in bins[k] ==> x.id !in gone)
      ensures (exists x :: x in bins[k] && x.id in gone) <==> Keep(Tagged(layer, bins)[k], entries, minMergeCount)
    {
      var c := Tagged(layer, bins)[k];
      assert c.members == bins[k] && bins[k][0] in bins[k];
      assert forall x :: x in bins[k] ==> x.id in IdsOf(c);
    }
  }

  lemma {:induction false} TaggedDropped(layer: nat, bins: seq<seq<Item>>, entries: Entries, minMergeCount: nat, gone: set<SegmentId>)
    requires TakesKept(Tagged(layer, bins), entries, minMergeCount, gone)
    ensures Tagged(layer, BinsWithout(bins, gone)) == Dropped(Tagged(layer, bins), entries, minMergeCount)
  {
    if bins != [] {
      var all, rest := Tagged(layer, bins), Tagged(layer, bins[1..]);
      KeptBinsGoWhole(layer, bins, entries, minMergeCount, gone);
      assert all[1..] == rest;
      assert forall k :: 0 <= k < |rest| ==> rest[k] == all[k + 1];
      TaggedDropped(layer, bins[1..], entries, minMergeCount, gone);
    }
  }

  /** A second run over what the kept candidates leave behind plans exactly the dropped ones again. */
  lemma {:induction false} LayerPlanOfWithout(ms: seq<Meta>, entries: Entries, layers: seq<nat>, claimed: set<SegmentId>,
                                              minMergeCount: nat, gone: set<SegmentId>)
    requires TakesKept(LayerPlan(ms, entries, layers, claimed), entries, minMergeCount, gone)
    ensures LayerPlan(ms, entries - gone, layers, claimed - gone) ==
            Dropped(LayerPlan(ms, entries, layers, claimed), entries, minMergeCount)
  {
    if layers != [] {
      var items := Collect(ms, entries, claimed);
      var bins := Bins(items, layers[0], []);
      var head := Tagged(layers[0], bins);
      var tail := LayerPlan(ms, entries, layers[1..], claimed + Members(head));
      var plan := head + tail;
      assert LayerPlan(ms, entries, layers, claimed) == plan;
      assert forall k :: 0 <= k < |head| ==> head[k] == plan[k];
      assert forall k :: 0 <= k < |tail| ==> tail[k] == plan[|head| + k];
      KeptBinsGoWhole(layers[0], bins, entries, minMergeCount, gone);
      TaggedDropped(layers[0], bins, entries, minMergeCount, gone);
      MembersOfDropped(head, entries, minMergeCount, gone);
      BinsOfWithout(items, layers[0], [], gone);
      WithoutOfSort(Eligible(ms, entries, claimed), gone);
      WithoutOfEligible(ms, entries, claimed, gone);
      LayerPlanOfWithout(ms, entries, layers[1..], claimed + Members(head), minMergeCount, gone);
      DroppedAppend(head, tail, entries, minMergeCount);
      assert claimed + Members(head) - gone == (claimed - gone) + Members(Dropped(head, entries, minMergeCount));
    }
  }

  lemma {:induction false} DroppedIsShort(candidates: seq<Candidate>, entries: Entries, minMergeCount: nat, gone: set<SegmentId>)
    requires TakesKept(candidates, entries, minMergeCount, gone)
    ensures Pruned(Dropped(candidates, entries, minMergeCount), entries - gone, minMergeCount) == []
  {
    if candidates != [] {
      assert forall k :: 0 <= k < |candidates[1..]| ==> candidates[1..][k] == candidates[k + 1];
      DroppedIsShort(candidates[1..], entries, minMergeCount, gone);
      var rest := Dropped(candidates[1..], entries, minMergeCount);
      assert ([candidates[0]] + rest)[1..] == rest;
    }
  }

  /** Nothing mergeable is left behind: after pruning, a fresh run over only the segments in no
      returned candidate, listed in the same order, returns no candidate. */
  lemma ResultIsQuiescent(ms: seq<Meta>, entries: Entries, layers: seq<nat>, mutables: seq<Item>, minMergeCount: nat)
    requires DistinctMetas(ms) && PositiveLayers(layers) && IsMutables(mutables, ms, entries)
    ensures var left := entries - Members(Pruned(Plan(ms, entries, layers, mutables), entries, minMergeCount));
            IsMutables([], ms, left) && Pruned(Plan(ms, left, layers, []), left, minMergeCount) == []
  {
    var plan := Plan(ms, entries, layers, mutables);
    var gone := Members(Pruned(plan, entries, minMergeCount));
    var left := entries - gone;
    var singles := Singles(mutables);
    var rest := LayerPlan(ms, entries, SortedLayers(layers), Members(singles));
    KeptAreTaken(ms, entries, layers, mutables, minMergeCount);
    assert TakesKept(rest, entries, minMergeCount, gone) by {
      assert forall k :: 0 <= k < |rest| ==> rest[k] == plan[|mutables| + k];
    }
    LayerPlanOfWithout(ms, entries, SortedLayers(layers), Members(singles), minMergeCount, gone);
    DroppedIsShort(rest, entries, minMergeCount, gone);
    MutablesAreTaken(plan, ms, entries, mutables, minMergeCount, gone);
    assert Members(singles) - gone == Members(Singles([]));
    assert Plan(ms, left, layers, []) == LayerPlan(ms, left, SortedLayers(layers), Members(Singles([])));
  }

  lemma MutablesAreTaken(plan: seq<Candidate>, ms: seq<Meta>, entries: Entries, mutables: seq<Item>, minMergeCount: nat,
                         gone: set<SegmentId>)
    requires IsMutables(mutables, ms, entries) && Singles(mutables) <= plan && TakesKept(plan, entries, minMergeCount, gone)
    ensures Members(Singles(mutables)) <= gone
    ensures IsMutables([], ms, entries - gone)
  {
    var singles := Singles(mutables);
    SinglesFacts(mutables);
    forall k | 0 <= k < |singles|
      ensures IdsOf(singles[k]) <= gone
    {
      assert plan[k] == singles[k] && mutables[k] in mutables;
    }
    var left := entries - gone;
    forall x | FromGiven(x, ms, left)
      ensures !left[x.id].mutable
    {
      var m :| m in ms && m.id in left && x == Sized(m, left);
      assert FromGiven(Sized(m, entries), ms, entries);
    }
  }

  lemma KeptAreTaken(ms: seq<Meta>, entries: Entries, layers: seq<nat>, mutables: seq<Item>, minMergeCount: nat)
    requires DistinctMetas(ms) && PositiveLayers(layers) && IsMutables(mutables, ms, entries)
    ensures var plan := Plan(ms, entries, layers, mutables);
            TakesKept(plan, entries, minMergeCount, Members(Pruned(plan, entries, minMergeCount)))
  {
    var plan := Plan(ms, entries, layers, mutables);
    PlanIsGood(ms, entries, layers, mutables);
    forall k | 0 <= k < |plan|
      ensures plan[k].members != []
    {
      assert k < |mutables| ==> plan[k] == plan[..|mutables|][k];
    }
    forall k | 0 <= k < |plan|
      ensures if Keep(plan[k], entries, minMergeCount) then IdsOf(plan[k]) <= Members(Pruned(plan, entries, minMergeCount))
              else IdsOf(plan[k]) !! Members(Pruned(plan, entries, minMergeCount))
    {
      KeptIsTaken(plan, entries, minMergeCount, k);
    }
  }

  lemma KeptIsTaken(plan: seq<Candidate>, entries: Entries, minMergeCount: nat, k: nat)
    requires Disjoint(plan) && k < |plan|
    ensures var kept := Members(Pruned(plan, entries, minMergeCount));
            if Keep(plan[k], entries, minMergeCount) then IdsOf(plan[k]) <= kept else IdsOf(plan[k]) !! kept
  {
    var kept := Pruned(plan, entries, minMergeCount);
    PrunedIsPart(plan, entries, minMergeCount);
    if Keep(plan[k], entries, minMergeCount) {
      assert plan[k] in kept;
      var j :| 0 <= j < |kept| && kept[j] == plan[k];
    } else {
      forall j | 0 <= j < |kept|
        ensures IdsOf(kept[j]) !! IdsOf(plan[k])
      {
        assert kept[j] in kept;
        var l :| 0 <= l < |plan| && plan[l] == kept[j];
      }
    }
  }

  // ---------- The policy object ----------

  function IdLists(candidates: seq<Candidate>): seq<seq<SegmentId>> {
    seq(|candidates|, k requires 0 <= k < |candidates| => Ids(candidates[k].members))
  }

  function UnionOf(lists: seq<seq<SegmentId>>): set<SegmentId> {
    set k, id | 0 <= k < |lists| && id in lists[k] :: id
  }

  predicate HasDocs(e: Entry) {
    e.numDocs + e.numDeleted > 0
  }

  ghost predicate NoDocs(entries: Entries, ids: set<SegmentId>) {
    forall id :: id in ids && id in entries ==> !HasDocs(entries[id])
  }

  /** A number for each segment, and their sum over segments listed in some order. */
  type Weights = map<SegmentId, nat>

  function Weight(w: Weights, id: SegmentId): nat {
    if id in w then w[id] else 0
  }

  function SumOf(w: Weights, order: seq<SegmentId>): nat {
    if order == [] then 0 else SumOf(w, order[..|order| - 1]) + Weight(w, order[|order| - 1])
  }

  function ByteSizes(entries: Entries): Weights {
    map id | id in entries :: entries[id].byteSize
  }

  function DocCounts(entries: Entries): Weights {
    map id | id in entries :: entries[id].numDocs + entries[id].numDeleted
  }

  /** All segments, each once. */
  ghost predicate Lists(order: seq<SegmentId>, ids: set<SegmentId>) {
    NoDuplicates(order) && |order| == |ids| && forall id :: id in order <==> id in ids
  }

  lemma SumAppend(w: Weights, order: seq<SegmentId>, id: SegmentId)
    ensures SumOf(w, order + [id]) == SumOf(w, order) + Weight(w, id)
  {
    assert (order + [id])[..|order|] == order;
  }

  lemma {:induction false} SumConcat(w: Weights, a: seq<SegmentId>, b: seq<SegmentId>)
    ensures SumOf(w, a + b) == SumOf(w, a) + SumOf(w, b)
  {
    if b == [] {
      assert a + b == a;
    } else {
      var front, last := b[..|b| - 1], b[|b| - 1];
      SumConcat(w, a, front);
      SumAppend(w, a + front, last);
      assert a + b == (a + front) + [last];
    }
  }

  lemma SumWithout(w: Weights, order: seq<SegmentId>, i: nat)
    requires i < |order|
    ensures SumOf(w, order) == SumOf(w, order[..i] + order[i + 1..]) + Weight(w, order[i])
  {
    var l, r := order[..i], order[i + 1..];
    assert order == (l + [order[i]]) + r;
    SumConcat(w, l + [order[i]], r);
    SumAppend(w, l, order[i]);
    SumConcat(w, l, r);
  }

  /** The sum does not depend on the order. */
  lemma {:induction false} SameSum(w: Weights, a: seq<SegmentId>, b: seq<SegmentId>, ids: set<SegmentId>)
    requires Lists(a, ids) && Lists(b, ids)
    ensures SumOf(w, a) == SumOf(w, b)
    decreases |a|
  {
    if a != [] {
      var n := |a| - 1;
      assert a[n] in a;
      var i :| 0 <= i < |b| && b[i] == a[n];
      DroppedListing(a, n, ids);
      DroppedListing(b, i, ids);
      assert a[..n] + a[n + 1..] == a[..n];
      SameSum(w, a[..n], b[..i] + b[i + 1..], ids - {a[n]});
      SumWithout(w, b, i);
    }
  }

  lemma DroppedListing(order: seq<SegmentId>, i: nat, ids: set<SegmentId>)
    requires Lists(order, ids) && i < |order|
    ensures Lists(order[..i] + order[i + 1..], ids - {order[i]})
  {
    var rest := order[..i] + order[i + 1..];
    assert order[i] in order;
    forall id
      ensures id in rest <==> id in ids - {order[i]}
    {
      if id in rest {
        var k :| 0 <= k < |rest| && rest[k] == id;
        assert order[if k < i then k else k + 1] == id;
      }
      if id in ids - {order[i]} {
        assert id in order;
        var k :| 0 <= k < |order| && order[k] == id;
        assert rest[if k < i then k else k - 1] == id;
      }
    }
  }

  lemma {:induction false} SumIsZero(w: Weights, order: seq<SegmentId>)
    ensures SumOf(w, order) == 0 <==> forall k :: 0 <= k < |order| ==> Weight(w, order[k]) == 0
  {
    if order != [] {
      SumIsZero(w, order[..|order| - 1]);
    }
  }

  lemma NoDocsListed(entries: Entries, order: seq<SegmentId>)
    requires Lists(order, entries.Keys)
    ensures SumOf(DocCounts(entries), order) == 0 <==> NoDocs(entries, entries.Keys)
  {
    SumIsZero(DocCounts(entries), order);
    if SumOf(DocCounts(entries), order) == 0 {
      forall id | id in entries
        ensures !HasDocs(entries[id])
      {
        assert id in order;
        var k :| 0 <= k < |order| && order[k] == id;
        assert Weight(DocCounts(entries), order[k]) == 0;
      }
    }
  }

  lemma ListsMore(order: seq<SegmentId>, ids: set<SegmentId>, id: SegmentId)
    requires Lists(order, ids) && id !in ids
    ensures Lists(order + [id], ids + {id})
  {
  }

  /** The hash map's segments in some order. */
  method ListIds(ids: set<SegmentId>) returns (order: seq<SegmentId>)
    ensures Lists(order, ids)
  {
    order := [];
    var done: set<SegmentId> := {};
    while done != ids
      invariant done <= ids && Lists(order, done)
      decreases |ids - done|
    {
      assert (forall c :: c !in ids - done) ==> done == ids;
      var id :| id in ids - done;
      ListsMore(order, done, id);
      assert ids - (done + {id}) == (ids - done) - {id};
      order, done := order + [id], done + {id};
    }
  }

  /** The average document size, or a panic on dividing by zero, with the order the hash map was
      listed in. */
  method AverageDocSize(entries: Entries) returns (r: Outcome<int>, order: seq<SegmentId>)
    ensures r.Panic? <==> NoDocs(entries, entries.Keys)
    ensures Lists(order, entries.Keys)
    ensures var bytes, docs := SumOf(ByteSizes(entries), order), SumOf(DocCounts(entries), order);
            r == if docs == 0 then Panic else Value(bytes / docs)
  {
    order := ListIds(entries.Keys);
    var bytes, docs := 0, 0;
    for k := 0 to |order|
      invariant bytes == SumOf(ByteSizes(entries), order[..k]) && docs == SumOf(DocCounts(entries), order[..k])
    {
      var id := order[k];
      assert id in order;
      SumAppend(ByteSizes(entries), order[..k], id);
      SumAppend(DocCounts(entries), order[..k], id);
      assert order[..k + 1] == order[..k] + [id];
      bytes, docs := bytes + entries[id].byteSize, docs + entries[id].numDocs + entries[id].numDeleted;
    }
    assert order[..|order|] == order;
    NoDocsListed(entries, order);
    r := if docs == 0 then Panic else Value(bytes / docs);
  }

  /** `iter().find` on the segment id. */
  method FindSegment(ms: seq<Meta>, id: SegmentId) returns (found: bool, m: Meta)
    ensures found ==> m in ms && m.id == id
    ensures !found ==> forall k :: 0 <= k < |ms| ==> ms[k].id != id
  {
    found, m := false, Meta(0, 0);
    for k := 0 to |ms|
      invariant forall j :: 0 <= j < k ==> ms[j].id != id
    {
      if ms[k].id == id {
        return true, ms[k];
      }
    }
  }

  /** Convert every mutable segment that was given, each on its own. */
  method ConvertMutables(ms: seq<Meta>, entries: Entries) returns (mutables: seq<Item>, candidates: seq<Candidate>)
    requires DistinctMetas(ms)
    ensures IsMutables(mutables, ms, entries) && candidates == Singles(mutables)
  {
    mutables, candidates := [], [];
    var todo := entries.Keys;
    while todo != {}
      invariant todo <= entries.Keys && candidates == Singles(mutables) && Distinct(mutables)
      invariant forall x :: x in mutables <==> FromGiven(x, ms, entries) && entries[x.id].mutable && x.id !in todo
    {
      var id :| id in todo;
      ghost var before := mutables;
      if entries[id].mutable {
        var found, m := FindSegment(ms, id);
        if found {
          assert forall m' :: m' in ms && m'.id == id ==> m' == m;
          mutables := mutables + [Sized(m, entries)];
          candidates := candidates + [Candidate(0, [Sized(m, entries)])];
          assert FromGiven(Sized(m, entries), ms, entries);
        }
      }
      todo := todo - {id};
    }
  }

  /** One layer: the candidate being filled is the last of the list, and it is thrown away at the end
      unless it is full. */
  method FillLayer(base: seq<Candidate>, segments: seq<Item>, layerSize: nat, merged: set<SegmentId>)
    returns (candidates: seq<Candidate>)
    requires layerSize > 0 && forall x :: x in segments ==> x.id !in merged
    ensures candidates == base + Tagged(layerSize, Bins(segments, layerSize, []))
  {
    var extendedLayerSize := Extended(layerSize);
    var candidateByteSize := 0;
    candidates := base + [Candidate(layerSize, [])];
    ghost var all := base + Tagged(layerSize, Bins(segments, layerSize, []));
    for k := 0 to |segments|
      invariant candidates != []
      invariant var last := candidates[|candidates| - 1];
                && last.layer == layerSize && Total(last.members) == candidateByteSize < extendedLayerSize
                && candidates[..|candidates| - 1] + Tagged(layerSize, Bins(segments[k..], layerSize, last.members)) == all
    {
      var segment := segments[k];
      var last := candidates[|candidates| - 1];
      assert segments[k..][1..] == segments[k + 1..];
      if segment.id in merged || segment.adjusted > layerSize {
        continue;
      }
      TotalOfAppend(last.members, segment);
      candidateByteSize := candidateByteSize + segment.actual;
      candidates := candidates[|candidates| - 1 := last.(members := last.members + [segment])];
      if candidateByteSize >= extendedLayerSize {
        ghost var rest := Bins(segments[k + 1..], layerSize, []);
        assert Tagged(layerSize, [last.members + [segment]] + rest) ==
               [Candidate(layerSize, last.members + [segment])] + Tagged(layerSize, rest);
        candidateByteSize := 0;
        candidates := candidates + [Candidate(layerSize, [])];
      }
    }
    if candidateByteSize < extendedLayerSize {
      candidates := candidates[..|candidates| - 1];
    }
  }

  /** Mutable segments first, then layer after layer, remembering what has been merged. */
  method BuildCandidates(ms: seq<Meta>, entries: Entries, layerSizes: seq<nat>)
    returns (candidates: seq<Candidate>, mutables: seq<Item>)
    requires DistinctMetas(ms) && PositiveLayers(layerSizes)
    ensures IsMutables(mutables, ms, entries) && candidates == Plan(ms, entries, layerSizes, mutables)
  {
    mutables, candidates := ConvertMutables(ms, entries);
    var merged := Members(candidates);
    var layers := SortedLayers(layerSizes);
    SortedLayersFacts(layerSizes);
    for k := 0 to |layers|
      invariant merged == Members(candidates)
      invariant candidates + LayerPlan(ms, entries, layers[k..], merged) == Plan(ms, entries, layerSizes, mutables)
    {
      var segments := Collect(ms, entries, merged);
      CollectFacts(ms, entries, merged);
      ghost var head := Tagged(layers[k], Bins(segments, layers[k], []));
      ghost var base := candidates;
      assert layers[k] in layers;
      candidates := FillLayer(candidates, segments, layers[k], merged);
      MembersOfAppend(base, head);
      NextLayer(ms, entries, layers, k, base, head, merged);
      merged := merged + Members(candidates);
    }
  }

  lemma NextLayer(ms: seq<Meta>, entries: Entries, layers: seq<nat>, k: nat, base: seq<Candidate>, head: seq<Candidate>,
                  claimed: set<SegmentId>)
    requires k < |layers| && head == Tagged(layers[k], Bins(Collect(ms, entries, claimed), layers[k], []))
    ensures base + LayerPlan(ms, entries, layers[k..], claimed) ==
            (base + head) + LayerPlan(ms, entries, layers[k + 1..], claimed + Members(head))
  {
    assert layers[k..][1..] == layers[k + 1..];
  }

  // ---------- What callers get ----------

  ghost predicate NoDuplicates(list: seq<SegmentId>) {
    forall i, j :: 0 <= i < j < |list| ==> list[i] != list[j]
  }

  ghost predicate ListsDisjoint(lists: seq<seq<SegmentId>>) {
    forall k, l, id :: 0 <= k < l < |lists| && id in lists[k] ==> id !in lists[l]
  }

  lemma {:induction false} PrunedStaysDisjoint(candidates: seq<Candidate>, entries: Entries, minMergeCount: nat)
    requires Disjoint(candidates)
    ensures Disjoint(Pruned(candidates, entries, minMergeCount))
  {
    if candidates != [] {
      var rest := Pruned(candidates[1..], entries, minMergeCount);
      PrunedStaysDisjoint(candidates[1..], entries, minMergeCount);
      PrunedIsPart(candidates[1..], entries, minMergeCount);
      forall k | 0 <= k < |rest|
        ensures IdsOf(candidates[0]) !! IdsOf(rest[k])
      {
        assert rest[k] in rest && rest[k] in candidates[1..];
        var j :| 0 <= j < |candidates[1..]| && candidates[1..][j] == rest[k];
        assert candidates[j + 1] == rest[k];
      }
    }
  }

  /** The lists handed to the index library are disjoint and duplicate-free, draw only on segments
      that were given and mergeable, and convert every given mutable segment on its own. */
  lemma ResultIsGood(ms: seq<Meta>, entries: Entries, layers: seq<nat>, mutables: seq<Item>, minMergeCount: nat)
    requires DistinctMetas(ms) && PositiveLayers(layers) && IsMutables(mutables, ms, entries)
    ensures var lists := IdLists(Pruned(Plan(ms, entries, layers, mutables), entries, minMergeCount));
            && ListsDisjoint(lists)
            && (forall k :: 0 <= k < |lists| ==> NoDuplicates(lists[k]))
            && (forall id :: id in UnionOf(lists) ==> id in entries && exists m :: m in ms && m.id == id)
            && (forall m :: m in ms && m.id in entries && entries[m.id].mutable ==> [m.id] in lists)
  {
    var plan := Plan(ms, entries, layers, mutables);
    var kept := Pruned(plan, entries, minMergeCount);
    var lists := IdLists(kept);
    PlanIsGood(ms, entries, layers, mutables);
    PrunedIsPart(plan, entries, minMergeCount);
    PrunedStaysDisjoint(plan, entries, minMergeCount);
    forall c | c in plan
      ensures Distinct(c.members) && forall x :: x in c.members ==> FromGiven(x, ms, entries)
    {
      var k :| 0 <= k < |plan| && plan[k] == c;
      if k < |mutables| {
        assert c == plan[..|mutables|][k] == Candidate(0, [mutables[k]]);
        assert mutables[k] in mutables;
      }
    }
    forall k | 0 <= k < |lists|
      ensures lists[k] == Ids(kept[k].members) && NoDuplicates(lists[k])
      ensures forall id :: id in lists[k] <==> id in IdsOf(kept[k])
      ensures forall id :: id in lists[k] ==> id in entries && exists m :: m in ms && m.id == id
    {
      assert kept[k] in kept;
      IdsFacts(kept[k]);
      forall id | id in lists[k]
        ensures id in entries && exists m :: m in ms && m.id == id
      {
        var x :| x in kept[k].members && x.id == id;
        assert FromGiven(x, ms, entries);
      }
    }
    forall m | m in ms && m.id in entries && entries[m.id].mutable
      ensures [m.id] in lists
    {
      MutableIsListed(ms, entries, layers, mutables, minMergeCount, m);
    }
  }

  lemma IdsFacts(c: Candidate)
    ensures forall id :: id in Ids(c.members) <==> id in IdsOf(c)
    ensures Distinct(c.members) ==> NoDuplicates(Ids(c.members))
  {
    forall id | id in IdsOf(c)
      ensures id in Ids(c.members)
    {
      var i :| 0 <= i < |c.members| && c.members[i].id == id;
      assert Ids(c.members)[i] == id;
    }
  }

  lemma MutableIsListed(ms: seq<Meta>, entries: Entries, layers: seq<nat>, mutables: seq<Item>, minMergeCount: nat, m: Meta)
    requires IsMutables(mutables, ms, entries) && m in ms && m.id in entries && entries[m.id].mutable
    ensures [m.id] in IdLists(Pruned(Plan(ms, entries, layers, mutables), entries, minMergeCount))
  {
    var plan := Plan(ms, entries, layers, mutables);
    var kept := Pruned(plan, entries, minMergeCount);
    var x := Sized(m, entries);
    assert FromGiven(x, ms, entries);
    var i :| 0 <= i < |mutables| && mutables[i] == x;
    assert plan[i] == Candidate(0, [x]);
    PrunedIsPart(plan, entries, minMergeCount);
    assert plan[i] in kept;
    var k :| 0 <= k < |kept| && kept[k] == plan[i];
    assert IdLists(kept)[k] == [m.id];
  }

  /** The segments of the map, in any order. */
  ghost predicate Relists(ms: seq<Meta>, entries: Entries) {
    DistinctMetas(ms) && forall m :: m in ms <==> m.id in entries && m.numDocs == entries[m.id].numDocs
  }

  // ---------- What a returned list weighs ----------

  /** Rounded down, the bytes of the documents that are not deleted are no more than the layer size. */
  predicate FitsLayer(e: Entry, layer: nat) {
    e.numDocs == 0 || e.byteSize * e.numDocs < (layer + 1) * (e.numDocs + e.numDeleted)
  }

  /** Segments that each fit the layer and, in bytes, reach four thirds of its size, but only with the
      last of them. */
  ghost predicate FillsLayer(list: seq<SegmentId>, entries: Entries, layer: nat) {
    && list != []
    && 4 * layer / 3 <= SumOf(ByteSizes(entries), list)
    && SumOf(ByteSizes(entries), list[..|list| - 1]) < 4 * layer / 3
    && forall id :: id in list ==> id in entries && FitsLayer(entries[id], layer)
  }

  lemma {:induction false} TotalIsSum(items: seq<Item>, entries: Entries)
    requires forall x :: x in items ==> x.id in entries && x.actual == entries[x.id].byteSize
    ensures Total(items) == SumOf(ByteSizes(entries), Ids(items))
  {
    if items != [] {
      var front, last := items[..|items| - 1], items[|items| - 1];
      assert items == front + [last];
      TotalIsSum(front, entries);
      assert Ids(items) == Ids(front) + [last.id];
      SumAppend(ByteSizes(entries), Ids(front), last.id);
      assert last in items;
    }
  }

  lemma FitsIff(m: Meta, entries: Entries, layer: nat)
    requires m.id in entries && m.numDocs == entries[m.id].numDocs
    ensures Sized(m, entries).adjusted <= layer <==> FitsLayer(entries[m.id], layer)
    ensures Sized(m, entries).actual == entries[m.id].byteSize && Sized(m, entries).id == m.id
  {
    var e := entries[m.id];
    if e.numDocs > 0 {
      AliveShare(e);
      var a, all := AliveBytes(e), e.numDocs + e.numDeleted;
      if a <= layer {
        Multiply(a + 1, layer + 1, all);
      } else {
        Multiply(layer + 1, a, all);
      }
    }
  }

  lemma Multiply(a: nat, b: nat, c: nat)
    requires a <= b
    ensures a * c <= b * c
  {
    assert (b - a) * c >= 0;
  }

  lemma CandidateFillsLayer(c: Candidate, ms: seq<Meta>, entries: Entries)
    requires LayerCandidate(c, ms, entries) && Relists(ms, entries)
    ensures FillsLayer(Ids(c.members), entries, c.layer)
  {
    forall x | x in c.members
      ensures x.id in entries && x.actual == entries[x.id].byteSize && FitsLayer(entries[x.id], c.layer)
    {
      var m :| m in ms && m.id in entries && x == Sized(m, entries);
      FitsIff(m, entries, c.layer);
    }
    var front := c.members[..|c.members| - 1];
    TotalIsSum(c.members, entries);
    TotalIsSum(front, entries);
    assert Ids(c.members)[..|c.members| - 1] == Ids(front);
    IdsFacts(c);
  }

  /** Every returned list is a mutable segment on its own, or at least two segments that fill a layer. */
  lemma ListsFillLayers(ms: seq<Meta>, entries: Entries, layers: seq<nat>, mutables: seq<Item>, minMergeCount: nat)
    requires Relists(ms, entries) && PositiveLayers(layers) && IsMutables(mutables, ms, entries)
    ensures var lists := IdLists(Pruned(Plan(ms, entries, layers, mutables), entries, minMergeCount));
            forall k :: 0 <= k < |lists| ==> Justified(lists[k], entries, layers, minMergeCount)
  {
    var plan := Plan(ms, entries, layers, mutables);
    var kept := Pruned(plan, entries, minMergeCount);
    PlanIsGood(ms, entries, layers, mutables);
    PrunedIsPart(plan, entries, minMergeCount);
    forall k | 0 <= k < |kept|
      ensures Justified(Ids(kept[k].members), entries, layers, minMergeCount)
    {
      assert kept[k] in kept;
      var j :| 0 <= j < |plan| && plan[j] == kept[k];
      if j < |mutables| {
        assert plan[j] == plan[..|mutables|][j] && mutables[j] in mutables;
      } else {
        CandidateFillsLayer(plan[j], ms, entries);
        assert plan[j].members[0] in plan[j].members;
      }
    }
  }

  ghost predicate Justified(list: seq<SegmentId>, entries: Entries, layers: seq<nat>, minMergeCount: nat) {
    || (|list| == 1 && list[0] in entries && entries[list[0]].mutable)
    || (minMergeCount <= |list| && exists layer :: layer in layers && FillsLayer(list, entries, layer))
  }

  class LayeredMergePolicy {
    const layerSizes: seq<nat>
    var minMergeCount: nat
    var mergeable: Entries
    var alreadyProcessed: bool

    constructor (layerSizes: seq<nat>)
      ensures this.layerSizes == layerSizes && minMergeCount == 2 && mergeable == map[] && !alreadyProcessed
    {
      this.layerSizes := layerSizes;
      minMergeCount := 2;
      mergeable := map[];
      alreadyProcessed := false;
    }

    /** Consider every segment that no vacuum and no other merge has claimed. */
    method SetMergeable(all: Entries, vacuumList: set<SegmentId>, mergeList: set<SegmentId>)
      modifies this`mergeable
      ensures mergeable == all - (vacuumList + mergeList)
    {
      var nonMergeable := vacuumList + mergeList;
      mergeable := map id | id in all && id !in nonMergeable :: all[id];
    }

    /** The candidates to merge.  Once a call has returned any, later calls return none. */
    method ComputeMergeCandidates(original: seq<Meta>)
      returns (r: Outcome<seq<seq<SegmentId>>>, ghost mutables: seq<Item>)
      requires DistinctMetas(original) && PositiveLayers(layerSizes)
      modifies this`alreadyProcessed
      ensures original == [] || old(alreadyProcessed) ==> r == Value([])
      ensures original != [] && !old(alreadyProcessed) ==>
                (r.Panic? <==> NoDocs(mergeable, mergeable.Keys))
      ensures original != [] && !old(alreadyProcessed) && r.Value? ==>
                && IsMutables(mutables, original, mergeable)
                && r.value == IdLists(Pruned(Plan(original, mergeable, layerSizes, mutables), mergeable, minMergeCount))
      ensures alreadyProcessed == (old(alreadyProcessed) || (r.Value? && r.value != []))
    {
      mutables := [];
      if original == [] || alreadyProcessed {
        return Value([]), [];
      }
      if mergeable == map[] {
        return Panic, [];
      }
      var avgDocSize, _ := AverageDocSize(mergeable);
      if avgDocSize.Panic? {
        return Panic, [];
      }
      var candidates, muts := BuildCandidates(original, mergeable, layerSizes);
      candidates := PruneShort(candidates, mergeable, minMergeCount);
      if candidates != [] {
        alreadyProcessed := true;
      }
      r, mutables := Value(IdLists(candidates)), muts;
    }

    /** The segments as the index library would describe them, in any order. */
    method SegmentMetas() returns (ms: seq<Meta>)
      ensures Relists(ms, mergeable)
    {
      ms := [];
      var todo := mergeable.Keys;
      while todo != {}
        invariant todo <= mergeable.Keys && DistinctMetas(ms)
        invariant forall m :: m in ms <==> m.id in mergeable && m.id !in todo && m.numDocs == mergeable[m.id].numDocs
      {
        var id :| id in todo;
        ms := ms + [Meta(id, mergeable[id].numDocs)];
        todo := todo - {id};
      }
    }

    /** Run the policy on its own segments, listed in some order, then keep only those that some
        candidate uses. */
    method Simulate() returns (r: Outcome<seq<seq<SegmentId>>>, ghost ms: seq<Meta>, ghost mutables: seq<Item>)
      requires PositiveLayers(layerSizes)
      modifies this`mergeable, this`alreadyProcessed
      ensures old(alreadyProcessed) ==> r == Value([])
      ensures !old(alreadyProcessed) ==> (r.Panic? <==> old(mergeable) != map[] && NoDocs(old(mergeable), old(mergeable).Keys))
      ensures Relists(ms, old(mergeable))
      ensures old(mergeable) == map[] ==> r == Value([])
      ensures old(mergeable) != map[] && !old(alreadyProcessed) && r.Value? ==>
                && IsMutables(mutables, ms, old(mergeable))
                && r.value == IdLists(Pruned(Plan(ms, old(mergeable), layerSizes, mutables), old(mergeable), minMergeCount))
      ensures r.Value? ==> mergeable.Keys == UnionOf(r.value)
      ensures forall id :: id in mergeable ==> id in old(mergeable) && mergeable[id] == old(mergeable)[id]
      ensures r.Value? ==> ListsDisjoint(r.value) && forall k :: 0 <= k < |r.value| ==> NoDuplicates(r.value[k])
      ensures r.Value? && !old(alreadyProcessed) ==>
                forall id :: id in old(mergeable) && old(mergeable)[id].mutable ==> [id] in r.value
      ensures r.Value? ==> forall k :: 0 <= k < |r.value| ==> Justified(r.value[k], old(mergeable), layerSizes, minMergeCount)
      ensures alreadyProcessed == (old(alreadyProcessed) || (r.Value? && r.value != []))
    {
      var listed := SegmentMetas();
      ms := listed;
      assert ms == [] ==> mergeable == map[] by {
        assert forall id :: id in mergeable ==> Meta(id, mergeable[id].numDocs) in ms;
      }
      assert mergeable == map[] ==> ms == [] by {
        assert ms != [] ==> ms[0] in ms;
      }
      r, mutables := ComputeMergeCandidates(listed);
      if r.Panic? {
        return;
      }
      if ms != [] && !old(alreadyProcessed) {
        ResultIsGood(ms, mergeable, layerSizes, mutables, minMergeCount);
        ListsFillLayers(ms, mergeable, layerSizes, mutables, minMergeCount);
        assert forall id :: id in mergeable && mergeable[id].mutable ==> Meta(id, mergeable[id].numDocs) in ms;
      }
      var toKeep := UnionOf(r.value);
      mergeable := map id | id in mergeable && id in toKeep :: mergeable[id];
    }
  }
}
