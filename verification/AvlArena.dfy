/** The height-balanced tree of the free space map: its nodes are slots of one fixed array, linked by their
    numbers, and the slots not in use form a list. */
module AvlArena {
  import opened AvlTree
  import opened Options

  /** `left` links the unused slots. */
  datatype Slot = Slot(left: Option<nat>, right: Option<nat>, tag: Tag, key: Key, val: Val, used: bool, height: nat)

  type Slots = seq<Slot>

  // ---------- What an array of slots stands for ----------

  function SlotsOf(t: Tree): set<nat> {
    SlotSet(Items(t))
  }

  lemma {:induction false} NodeSlots(t: Tree)
    requires t.Node?
    ensures SlotsOf(t) == SlotsOf(t.left) + {t.item.slot} + SlotsOf(t.right)
  {
    var l, all := Items(t.left), Items(t);
    forall s | s in SlotsOf(t.left) || s == t.item.slot || s in SlotsOf(t.right)
      ensures s in SlotsOf(t)
    {
      if s in SlotsOf(t.left) {
        var i :| 0 <= i < |l| && l[i].slot == s;
        assert all[i].slot == s;
      } else if s == t.item.slot {
        assert all[|l|].slot == s;
      } else {
        var i :| 0 <= i < |Items(t.right)| && Items(t.right)[i].slot == s;
        assert all[|l| + 1 + i].slot == s;
      }
    }
  }

  /** Where the slots of a tree are: each in one place. */
  lemma {:induction false} NodeApart(t: Tree)
    requires t.Node? && Apart(Items(t))
    ensures Apart(Items(t.left)) && Apart(Items(t.right))
    ensures forall s :: s in SlotsOf(t.left) ==> s != t.item.slot && s !in SlotsOf(t.right)
    ensures forall s :: s in SlotsOf(t.right) ==> s != t.item.slot
  {
    var l, r, all := Items(t.left), Items(t.right), Items(t);
    assert forall i :: 0 <= i < |l| ==> all[i] == l[i];
    assert all[|l|] == t.item;
    assert forall i :: 0 <= i < |r| ==> all[|l| + 1 + i] == r[i];
  }

  ghost predicate Stores(s: Slot, x: Item) {
    s.used && s.key == x.key && s.val == x.val && s.tag == x.tag
  }

  /** From `root` on, the slots are linked like the tree, and hold its items and heights. */
  ghost predicate Repr(a: Slots, root: Option<nat>, t: Tree)
    decreases t
  {
    match t
    case Leaf => root == None
    case Node(l, x, r) =>
      && root == Some(x.slot) && x.slot < |a| && Stores(a[x.slot], x)
      && a[x.slot].height == Height(t)
      && Repr(a, a[x.slot].left, l) && Repr(a, a[x.slot].right, r)
  }

  /** The same, except that the height of the root may be out of date. */
  ghost predicate Linked(a: Slots, t: Tree)
    requires t.Node?
  {
    && t.item.slot < |a| && Stores(a[t.item.slot], t.item)
    && Repr(a, a[t.item.slot].left, t.left) && Repr(a, a[t.item.slot].right, t.right)
  }

  ghost predicate SameOn(a: Slots, b: Slots, s: set<nat>) {
    |a| == |b| && forall i :: i in s && i < |a| ==> a[i] == b[i]
  }

  ghost predicate SameOutside(a: Slots, b: Slots, s: set<nat>) {
    |a| == |b| && forall i: nat :: i !in s && i < |a| ==> a[i] == b[i]
  }

  lemma {:induction false} ReprFrame(a: Slots, b: Slots, root: Option<nat>, t: Tree)
    requires Repr(a, root, t) && SameOn(a, b, SlotsOf(t))
    ensures Repr(b, root, t)
    decreases t
  {
    match t
    case Leaf =>
    case Node(l, x, r) =>
      NodeSlots(t);
      ReprFrame(a, b, a[x.slot].left, l);
      ReprFrame(a, b, a[x.slot].right, r);
  }

  lemma Shapes(a: Slots, i: nat, t: Tree)
    requires Repr(a, Some(i), t)
    ensures t.Node? && i < |a|
    ensures (a[i].left == None <==> t.left.Leaf?) && (a[i].right == None <==> t.right.Leaf?)
  {
  }

  /** The list of unused slots from `head` on. */
  ghost predicate IsFree(a: Slots, head: Option<nat>, free: seq<nat>)
    decreases |free|
  {
    if free == [] then head == None
    else head == Some(free[0]) && free[0] < |a| && !a[free[0]].used && IsFree(a, a[free[0]].left, free[1..])
  }

  lemma {:induction false} FreeFrame(a: Slots, b: Slots, head: Option<nat>, free: seq<nat>)
    requires IsFree(a, head, free) && |a| == |b| && forall i :: i in free && i < |a| ==> a[i] == b[i]
    ensures IsFree(b, head, free)
    decreases |free|
  {
    if free != [] {
      FreeFrame(a, b, a[free[0]].left, free[1..]);
    }
  }

  ghost predicate NoDup(s: seq<nat>) {
    forall i, j :: 0 <= i < j < |s| ==> s[i] != s[j]
  }

  // ---------- Rotations ----------

  function HeightAt(a: Slots, root: Option<nat>): nat
    requires root.Some? ==> root.value < |a|
  {
    if root.Some? then a[root.value].height else 0
  }

  lemma HeightAtIs(a: Slots, b: Slots, root: Option<nat>, t: Tree)
    requires Repr(a, root, t) && SameOn(a, b, SlotsOf(t))
    ensures (root.Some? ==> root.value < |b|) && HeightAt(b, root) == Height(t)
  {
    if t.Node? {
      NodeSlots(t);
    }
  }

  /** Slots that differ from those of a tree only in the height of its root, which is up to date. */
  lemma HeightSet(a: Slots, b: Slots, t: Tree)
    requires t.Node? && Apart(Items(t)) && Linked(a, t) && SameOutside(a, b, {t.item.slot})
    requires b[t.item.slot] == a[t.item.slot].(height := Height(t))
    ensures Repr(b, Some(t.item.slot), t)
  {
    NodeApart(t);
    ReprFrame(a, b, a[t.item.slot].left, t.left);
    ReprFrame(a, b, a[t.item.slot].right, t.right);
  }

  /** The two nodes of a rotation are apart from each other and from the subtrees. */
  lemma RightPair(t: Tree)
    requires t.Node? && t.left.Node? && Apart(Items(t))
    ensures var x, y := t.left.item.slot, t.item.slot;
            && x != y && x in SlotsOf(t) && y in SlotsOf(t)
            && (forall s :: s in SlotsOf(t.left.left) || s in SlotsOf(t.left.right) || s in SlotsOf(t.right) ==> s != x && s != y)
  {
    NodeSlots(t);
    NodeSlots(t.left);
    NodeApart(t);
    NodeApart(t.left);
  }

  lemma LeftPair(t: Tree)
    requires t.Node? && t.right.Node? && Apart(Items(t))
    ensures var x, y := t.item.slot, t.right.item.slot;
            && x != y && x in SlotsOf(t) && y in SlotsOf(t)
            && (forall s :: s in SlotsOf(t.left) || s in SlotsOf(t.right.left) || s in SlotsOf(t.right.right) ==> s != x && s != y)
  {
    NodeSlots(t);
    NodeSlots(t.right);
    NodeApart(t);
    NodeApart(t.right);
  }

  lemma RotatedRight(a: Slots, b: Slots, t: Tree)
    requires t.Node? && t.left.Node? && Apart(Items(t)) && Linked(a, t)
    requires var x, y := t.left.item.slot, t.item.slot;
             && SameOutside(a, b, {x, y}) && x < |b| && y < |b|
             && b[x] == a[x].(right := Some(y), height := Height(RotateRight(t)))
             && b[y] == a[y].(left := a[x].right, height := Height(RotateRight(t).right))
    ensures Repr(b, Some(t.left.item.slot), RotateRight(t))
  {
    var x, y := t.left.item.slot, t.item.slot;
    RightPair(t);
    ReprFrame(a, b, a[x].left, t.left.left);
    ReprFrame(a, b, a[x].right, t.left.right);
    ReprFrame(a, b, a[y].right, t.right);
  }

  lemma RotatedLeft(a: Slots, b: Slots, t: Tree)
    requires t.Node? && t.right.Node? && Apart(Items(t)) && Linked(a, t)
    requires var x, y := t.item.slot, t.right.item.slot;
             && SameOutside(a, b, {x, y}) && x < |b| && y < |b|
             && b[y] == a[y].(left := Some(x), height := Height(RotateLeft(t)))
             && b[x] == a[x].(right := a[y].left, height := Height(RotateLeft(t).left))
    ensures Repr(b, Some(t.right.item.slot), RotateLeft(t))
  {
    var x, y := t.item.slot, t.right.item.slot;
    LeftPair(t);
    ReprFrame(a, b, a[x].left, t.left);
    ReprFrame(a, b, a[y].left, t.right.left);
    ReprFrame(a, b, a[y].right, t.right.right);
  }

  /** The left subtree is replaced by one that was built without touching the rest. */
  lemma LeftReplaced(a: Slots, b: Slots, c: Slots, t: Tree, l: Tree, child: Option<nat>, touched: set<nat>)
    requires t.Node? && Linked(a, t) && SameOutside(a, b, touched) && Repr(b, child, l)
    requires t.item.slot !in touched && t.item.slot !in SlotsOf(l) && forall s :: s in SlotsOf(t.right) ==> s !in touched
    requires t.item.slot !in SlotsOf(t.right)
    requires c == b[t.item.slot := b[t.item.slot].(left := child)]
    ensures Linked(c, Node(l, t.item, t.right))
  {
    ReprFrame(b, c, child, l);
    ReprFrame(a, c, a[t.item.slot].right, t.right);
  }

  lemma RightReplaced(a: Slots, b: Slots, c: Slots, t: Tree, r: Tree, child: Option<nat>, touched: set<nat>)
    requires t.Node? && Linked(a, t) && SameOutside(a, b, touched) && Repr(b, child, r)
    requires t.item.slot !in touched && t.item.slot !in SlotsOf(r) && forall s :: s in SlotsOf(t.left) ==> s !in touched
    requires t.item.slot !in SlotsOf(t.left)
    requires c == b[t.item.slot := b[t.item.slot].(right := child)]
    ensures Linked(c, Node(t.left, t.item, r))
  {
    ReprFrame(b, c, child, r);
    ReprFrame(a, c, a[t.item.slot].left, t.left);
  }

  // ---------- Insertion ----------

  /** The slot the next new key goes to, and the tag that is in it. */
  function NextSlot(free: seq<nat>): nat {
    if free == [] then 0 else free[0]
  }

  function NextTag(a: Slots, free: seq<nat>): Tag {
    if free == [] || |a| <= free[0] then 0 else a[free[0]].tag
  }

  /** The unused slots are used for nothing else. */
  ghost predicate FreeOk(a: Slots, head: Option<nat>, free: seq<nat>, t: Tree) {
    IsFree(a, head, free) && NoDup(free) && forall i :: i in free ==> i !in SlotsOf(t)
  }

  ghost predicate TreeOk(a: Slots, root: Option<nat>, t: Tree) {
    Repr(a, root, t) && Apart(Items(t)) && Ascending(Items(t))
  }

  /** The slots an insertion may change. */
  ghost function Touched(t: Tree, key: Key, free: seq<nat>): set<nat> {
    if key in Contents(Items(t)) then SlotsOf(t) else SlotsOf(t) + {NextSlot(free)}
  }

  /** The list of unused slots after an insertion. */
  ghost function FreeAfter(t: Tree, key: Key, free: seq<nat>): seq<nat> {
    if key in Contents(Items(t)) || free == [] then free else free[1..]
  }

  ghost predicate HasRoom(t: Tree, key: Key, free: seq<nat>) {
    key in Contents(Items(t)) || free != []
  }

  /** Insertion into the tree, seen from the slots. */
  lemma InsertSlots(t: Tree, key: Key, val: Val, free: seq<nat>, tag: Tag)
    requires Apart(Items(t)) && Ascending(Items(t)) && HasRoom(t, key, free)
    requires forall i :: i in free ==> i !in SlotsOf(t)
    ensures var t' := Insert(t, key, val, NextSlot(free), tag);
            Apart(Items(t')) && Ascending(Items(t')) && SlotsOf(t') == Touched(t, key, free)
  {
    InsertItems(t, key, val, NextSlot(free), tag);
    InsertedSlots(Items(t), Item(NextSlot(free), key, val, tag));
    InsertedAscends(Items(t), Item(NextSlot(free), key, val, tag));
  }

  /** The subtree a key belongs to. */
  function Side(t: Tree, key: Key): Tree
    requires t.Node?
  {
    if key < t.item.key then t.left else t.right
  }

  lemma SideFacts(t: Tree, key: Key)
    requires t.Node? && Apart(Items(t)) && Ascending(Items(t)) && key != t.item.key
    ensures Apart(Items(Side(t, key))) && Ascending(Items(Side(t, key)))
    ensures forall s :: s in SlotsOf(Side(t, key)) ==> s in SlotsOf(t) && s != t.item.slot
    ensures key in Contents(Items(Side(t, key))) <==> key in Contents(Items(t))
    ensures key in Contents(Items(t)) ==> Contents(Items(Side(t, key)))[key] == Contents(Items(t))[key]
  {
    NodeParts(Items(t.left), t.item, Items(t.right));
    NodeApart(t);
    NodeSlots(t);
    ContentsInNode(Items(t.left), t.item, Items(t.right), key);
  }

  /** Insertion into a subtree leaves the whole apart. */
  lemma InsertBelow(t: Tree, key: Key, val: Val, free: seq<nat>, tag: Tag)
    requires t.Node? && Apart(Items(t)) && Ascending(Items(t)) && key != t.item.key && HasRoom(t, key, free)
    requires forall i :: i in free ==> i !in SlotsOf(t)
    ensures t.item.slot in SlotsOf(t) && t.item.slot !in Touched(Side(t, key), key, free)
    ensures key < t.item.key ==>
              var t' := Node(Insert(t.left, key, val, NextSlot(free), tag), t.item, t.right);
              && Apart(Items(t')) && SlotsOf(t') == Touched(t, key, free)
              && forall s :: s in SlotsOf(t.right) ==> s !in Touched(t.left, key, free)
    ensures t.item.key < key ==>
              var t' := Node(t.left, t.item, Insert(t.right, key, val, NextSlot(free), tag));
              && Apart(Items(t')) && SlotsOf(t') == Touched(t, key, free)
              && forall s :: s in SlotsOf(t.left) ==> s !in Touched(t.right, key, free)
  {
    var l, x, r := t.left, t.item, t.right;
    NodeSlots(t);
    NodeApart(t);
    SideFacts(t, key);
    InsertSlots(t, key, val, free, tag);
    if key < x.key {
      RebalanceKeepsItems(Node(Insert(l, key, val, NextSlot(free), tag), x, r));
    } else {
      RebalanceKeepsItems(Node(l, x, Insert(r, key, val, NextSlot(free), tag)));
    }
  }

  /** The unused slots stay a list when only the slots of an insertion change. */
  lemma FreeStays(a: Slots, b: Slots, head: Option<nat>, t: Tree, key: Key, free: seq<nat>)
    requires IsFree(a, head, FreeAfter(t, key, free)) && SameOutside(a, b, Touched(t, key, free)) && HasRoom(t, key, free)
    requires NoDup(free) && forall i :: i in free ==> i !in SlotsOf(t)
    ensures IsFree(b, head, FreeAfter(t, key, free))
  {
    FreeFrame(a, b, head, FreeAfter(t, key, free));
  }

  /** The slots after an insertion stand for the tree after it, and no others have changed. */
  ghost predicate Inserted(a: Slots, b: Slots, head: Option<nat>, root: Option<nat>, t: Tree, key: Key, val: Val, free: seq<nat>) {
    && Repr(b, root, Insert(t, key, val, NextSlot(free), NextTag(a, free)))
    && IsFree(b, head, FreeAfter(t, key, free))
    && SameOutside(a, b, Touched(t, key, free))
  }

  /** What an insertion tells its caller: the value it replaced and the tag of the key. */
  ghost predicate Reported(replaced: Option<Val>, tag: Option<Tag>, added: bool, m: map<Key, Entry>, key: Key, next: Tag) {
    && (added <==> key !in m)
    && replaced == (if key in m then Some(m[key].val) else None)
    && tag == Some(if key in m then m[key].tag else next)
  }

  datatype Result = Ok(root: Option<nat>) | Full

  // ---------- Removal ----------

  /** The slot that becomes unused when `key` is removed. */
  function FreedSlot(t: Tree, key: Key): nat
    requires Ascending(Items(t)) && key in Contents(Items(t))
  {
    ContentsHas(Items(t), key);
    DeleteItems(t, key);
    var p := Position(Items(t), key);
    Items(t)[if Moves(t, key) then p + 1 else p].slot
  }

  lemma DeleteSlots(t: Tree, key: Key)
    requires Apart(Items(t)) && Ascending(Items(t))
    ensures Apart(Items(Delete(t, key))) && Ascending(Items(Delete(t, key)))
    ensures key !in Contents(Items(t)) ==> SlotsOf(Delete(t, key)) == SlotsOf(t)
    ensures key in Contents(Items(t)) ==>
              FreedSlot(t, key) in SlotsOf(t) && SlotsOf(Delete(t, key)) == SlotsOf(t) - {FreedSlot(t, key)}
  {
    DeleteItems(t, key);
    RemovedContents(Items(t), key, Moves(t, key), Items(Delete(t, key)));
    ContentsHas(Items(t), key);
    if key in Contents(Items(t)) {
      DroppedSlots(Items(t), Position(Items(t), key), Moves(t, key));
    }
  }

  lemma FreedBelow(t: Tree, key: Key)
    requires t.Node? && Apart(Items(t)) && Ascending(Items(t)) && key != t.item.key && key in Contents(Items(t))
    ensures Ascending(Items(Side(t, key))) && key in Contents(Items(Side(t, key)))
    ensures FreedSlot(t, key) == FreedSlot(Side(t, key), key)
  {
    SideFacts(t, key);
    PositionInNode(Items(t.left), t.item, Items(t.right), key);
    ContentsHas(Items(t), key);
    ContentsHas(Items(Side(t, key)), key);
    DeleteItems(t, key);
    DeleteItems(Side(t, key), key);
  }

  /** Removal from a subtree leaves the whole apart. */
  lemma DeleteBelow(t: Tree, key: Key)
    requires t.Node? && Apart(Items(t)) && Ascending(Items(t)) && key != t.item.key
    ensures var t' := if key < t.item.key then Node(Delete(t.left, key), t.item, t.right)
                      else Node(t.left, t.item, Delete(t.right, key));
            && Apart(Items(t')) && SlotsOf(t') == SlotsOf(Delete(t, key))
            && forall s :: s in SlotsOf(t') ==> s in SlotsOf(t)
    ensures t.item.slot in SlotsOf(t) && t.item.slot !in SlotsOf(Side(t, key))
    ensures key < t.item.key ==> forall s :: s in SlotsOf(t.right) ==> s !in SlotsOf(t.left)
    ensures t.item.key < key ==> forall s :: s in SlotsOf(t.left) ==> s !in SlotsOf(t.right)
  {
    NodeSlots(t);
    NodeApart(t);
    DeleteSlots(t, key);
    if key < t.item.key {
      RebalanceKeepsItems(Node(Delete(t.left, key), t.item, t.right));
    } else {
      RebalanceKeepsItems(Node(t.left, t.item, Delete(t.right, key)));
    }
  }

  /** The list of unused slots after a removal. */
  ghost function FreedList(t: Tree, key: Key, free: seq<nat>): seq<nat>
    requires Ascending(Items(t))
  {
    if key in Contents(Items(t)) then [FreedSlot(t, key)] + free else free
  }

  /** The slots after a removal stand for the tree after it, no others have changed, and the tag of the
      removed key is in the freed slot. */
  ghost predicate Deleted(a: Slots, b: Slots, head: Option<nat>, root: Option<nat>, t: Tree, key: Key, free: seq<nat>)
    requires Ascending(Items(t))
  {
    && Repr(b, root, Delete(t, key))
    && IsFree(b, head, FreedList(t, key, free))
    && SameOutside(a, b, SlotsOf(t))
    && (key in Contents(Items(t)) ==> b[FreedSlot(t, key)].tag == Contents(Items(t))[key].tag)
  }

  /** What a removal tells its caller: the value it removed. */
  ghost predicate RemovalReported(removed: Option<Val>, did: bool, m: map<Key, Entry>, key: Key) {
    (did <==> key in m) && removed == if key in m then Some(m[key].val) else None
  }

  /** The list of unused slots is not touched by work on the rest of the tree. */
  lemma FreedStays(a: Slots, b: Slots, head: Option<nat>, t: Tree, key: Key, free: seq<nat>)
    requires Apart(Items(t)) && Ascending(Items(t)) && forall i :: i in free ==> i !in SlotsOf(t)
    requires IsFree(a, head, FreedList(t, key, free)) && SameOutside(a, b, SlotsOf(Delete(t, key)))
    ensures IsFree(b, head, FreedList(t, key, free))
    ensures key in Contents(Items(t)) ==> FreedSlot(t, key) < |a| == |b| && b[FreedSlot(t, key)] == a[FreedSlot(t, key)]
  {
    DeleteSlots(t, key);
    var list := FreedList(t, key, free);
    forall i | i in list && i < |a|
      ensures a[i] == b[i]
    {
      assert i in free || (key in Contents(Items(t)) && i == FreedSlot(t, key));
    }
    FreeFrame(a, b, head, list);
  }

  lemma RetaggedSlots(items: seq<Item>, tag: Tag)
    requires items != [] && Apart(items)
    ensures var items' := [items[0].(tag := tag)] + items[1..];
            Apart(items') && SlotSet(items') == SlotSet(items) && items[0].slot in SlotSet(items)
  {
    var items' := [items[0].(tag := tag)] + items[1..];
    assert forall i :: 0 <= i < |items| ==> items'[i].slot == items[i].slot;
  }

  /** The first item of a tree frees its own slot. */
  lemma FreedFirst(t: Tree)
    requires t.Node? && Ascending(Items(t))
    ensures Min(t).key in Contents(Items(t)) && Contents(Items(t))[Min(t).key] == Entry(Min(t).val, Min(t).tag)
    ensures FreedSlot(t, Min(t).key) == Min(t).slot
  {
    MinIsFirst(t, 0);
    PositionIs(Items(t), Min(t).key, 0);
    ContentsHas(Items(t), Min(t).key);
    DeleteItems(t, Min(t).key);
  }

  /** A tree and the same tree with another tag on its first item. */
  lemma RetagFacts(t: Tree, tag: Tag)
    requires t.Node? && Apart(Items(t)) && Ascending(Items(t))
    ensures var t' := WithMinTag(t, tag);
            && Apart(Items(t')) && Ascending(Items(t')) && SlotsOf(t') == SlotsOf(t)
            && Min(t).key in Contents(Items(t')) && Contents(Items(t'))[Min(t).key].tag == tag
            && FreedSlot(t', Min(t).key) == Min(t).slot
            && Min(t).slot in SlotsOf(t)
  {
    var t' := WithMinTag(t, tag);
    MinIsFirst(t, tag);
    Retagged(Items(t), tag);
    RetaggedSlots(Items(t), tag);
    MinIsFirst(t', tag);
    assert Min(t') == Min(t).(tag := tag);
    FreedFirst(t');
  }

  /** Changing the tag of the first node changes the tag of the first item. */
  lemma {:induction false} RetagRepr(a: Slots, b: Slots, root: Option<nat>, t: Tree, tag: Tag)
    requires t.Node? && Apart(Items(t)) && Repr(a, root, t) && Min(t).slot < |a| == |b|
    requires forall s :: s in SlotsOf(t) && s < |a| && s != Min(t).slot ==> b[s] == a[s]
    requires b[Min(t).slot] == a[Min(t).slot].(tag := tag)
    ensures Repr(b, root, WithMinTag(t, tag))
    decreases t
  {
    NodeSlots(t);
    NodeApart(t);
    var i := t.item.slot;
    if t.left.Node? {
      MinIsFirst(t.left, tag);
      assert Items(t.left)[0].slot in SlotsOf(t.left);
      RetagRepr(a, b, a[i].left, t.left, tag);
    }
    ReprFrame(a, b, a[i].right, t.right);
  }

  /** The next node's item moved up to the root, and the root's tag to the next node. */
  function Raised(t: Tree): (r: Tree)
    requires t.Node? && t.left.Node? && t.right.Node?
    ensures r.Node?
  {
    Node(t.left, Min(t.right).(slot := t.item.slot), WithMinTag(t.right, t.item.tag))
  }

  lemma TwoChildren(t: Tree)
    requires t.Node? && t.left.Node? && t.right.Node? && Apart(Items(t)) && Ascending(Items(t))
    ensures t.item.key in Contents(Items(t)) && Contents(Items(t))[t.item.key] == Entry(t.item.val, t.item.tag)
    ensures FreedSlot(t, t.item.key) == Min(t.right).slot
    ensures var t' := Raised(t);
            Items(t'.(right := Delete(t'.right, Min(t.right).key))) == Items(Delete(t, t.item.key))
  {
    var l, x, r := t.left, t.item, t.right;
    ContentsInNode(Items(l), x, Items(r), x.key);
    PositionInNode(Items(l), x, Items(r), x.key);
    MinIsFirst(r, x.tag);
    DeleteItems(t, x.key);
    assert Items(t)[|Items(l)| + 1] == Items(r)[0];
    RebalanceKeepsItems(Node(l, Min(r).(slot := x.slot), Delete(WithMinTag(r, x.tag), Min(r).key)));
  }

  /** Removal of a node with two children: the next node's item moves up, and its slot is freed. */
  lemma RaisedFacts(t: Tree)
    requires t.Node? && t.left.Node? && t.right.Node? && Apart(Items(t)) && Ascending(Items(t))
    ensures var r, key := Raised(t).right, Min(t.right).key;
            var t' := Raised(t).(right := Delete(r, key));
            && Apart(Items(r)) && Ascending(Items(r)) && key in Contents(Items(r))
            && (forall s :: s in SlotsOf(r) ==> s in SlotsOf(t) && s != t.item.slot && s !in SlotsOf(t.left))
            && (forall s :: s in SlotsOf(t.left) ==> s in SlotsOf(t) && s != t.item.slot)
            && t.item.key in Contents(Items(t)) && Contents(Items(r))[key].tag == Contents(Items(t))[t.item.key].tag
            && FreedSlot(t, t.item.key) == FreedSlot(r, key)
            && Apart(Items(t')) && SlotsOf(t') == SlotsOf(Delete(t, t.item.key))
            && forall s :: s in SlotsOf(t') ==> s in SlotsOf(t)
  {
    NodeSlots(t);
    NodeApart(t);
    NodeParts(Items(t.left), t.item, Items(t.right));
    RetagFacts(t.right, t.item.tag);
    TwoChildren(t);
    DeleteSlots(t, t.item.key);
  }

  /** Removal of a node with one child or none: the child takes its place, and its slot is freed. */
  lemma OneChild(t: Tree)
    requires t.Node? && (t.left.Leaf? || t.right.Leaf?) && Apart(Items(t)) && Ascending(Items(t))
    ensures t.item.key in Contents(Items(t)) && Contents(Items(t))[t.item.key] == Entry(t.item.val, t.item.tag)
    ensures FreedSlot(t, t.item.key) == t.item.slot
  {
    ContentsInNode(Items(t.left), t.item, Items(t.right), t.item.key);
    PositionInNode(Items(t.left), t.item, Items(t.right), t.item.key);
    DeleteItems(t, t.item.key);
  }

  // ---------- The map ----------

  /** What a tree holds is what its root and its subtrees hold. */
  lemma SplitContents(t: Tree)
    requires t.Node? && Ascending(Items(t))
    ensures Ascending(Items(t.left)) && Ascending(Items(t.right))
    ensures t.item.key in Contents(Items(t)) && Contents(Items(t))[t.item.key] == Entry(t.item.val, t.item.tag)
    ensures forall k :: k in Contents(Items(t.left)) ==>
                          k < t.item.key && k in Contents(Items(t)) && Contents(Items(t))[k] == Contents(Items(t.left))[k]
    ensures forall k :: k in Contents(Items(t.right)) ==>
                          t.item.key < k && k in Contents(Items(t)) && Contents(Items(t))[k] == Contents(Items(t.right))[k]
    ensures forall k :: k in Contents(Items(t)) ==>
                          k == t.item.key || k in Contents(if k < t.item.key then Items(t.left) else Items(t.right))
  {
    NodeParts(Items(t.left), t.item, Items(t.right));
    forall k
      ensures k in Contents(Items(t.left)) ==>
                k < t.item.key && k in Contents(Items(t)) && Contents(Items(t))[k] == Contents(Items(t.left))[k]
      ensures k in Contents(Items(t.right)) ==>
                t.item.key < k && k in Contents(Items(t)) && Contents(Items(t))[k] == Contents(Items(t.right))[k]
      ensures k in Contents(Items(t)) ==>
                k == t.item.key || k in Contents(if k < t.item.key then Items(t.left) else Items(t.right))
    {
      ContentsInNode(Items(t.left), t.item, Items(t.right), k);
      ContentsHas(Items(t.left), k);
      ContentsHas(Items(t.right), k);
    }
    ContentsInNode(Items(t.left), t.item, Items(t.right), t.item.key);
  }

  /** The tags in the unused slots. */
  ghost function TagsOf(a: Slots, free: seq<nat>): seq<Tag> {
    if free == [] then [] else [if free[0] < |a| then a[free[0]].tag else 0] + TagsOf(a, free[1..])
  }

  lemma {:induction false} TagsFrame(a: Slots, b: Slots, free: seq<nat>)
    requires |a| == |b| && forall i :: i in free && i < |a| ==> a[i] == b[i]
    ensures TagsOf(a, free) == TagsOf(b, free)
  {
    if free != [] {
      TagsFrame(a, b, free[1..]);
    }
  }

  lemma {:induction false} TagsSame(a: Slots, b: Slots, free: seq<nat>)
    requires |a| == |b| && forall i :: 0 <= i < |a| ==> a[i].tag == b[i].tag
    ensures TagsOf(a, free) == TagsOf(b, free)
  {
    if free != [] {
      TagsSame(a, b, free[1..]);
    }
  }

  /** The numbers from `i` up to `n`. */
  function Upto(i: nat, n: nat): seq<nat>
    requires i <= n
  {
    seq(n - i, k requires 0 <= k => i + k)
  }

  /** The state of the map as values: the slots, the tree and the list they stand for. */
  ghost predicate StateOk(a: Slots, root: Option<nat>, head: Option<nat>, t: Tree, free: seq<nat>) {
    TreeOk(a, root, t) && Balanced(t) && FreeOk(a, head, free, t)
  }

  /** A key that is there gets the value and keeps its tag; a new one takes the first free tag. */
  ghost predicate InsertEffect(m: map<Key, Entry>, tags: seq<Tag>, m': map<Key, Entry>, tags': seq<Tag>, key: Key, val: Val) {
    if key in m then m' == m[key := Entry(val, m[key].tag)] && tags' == tags
    else tags != [] && m' == m[key := Entry(val, tags[0])] && tags' == tags[1..]
  }

  lemma FreeAfterFacts(t: Tree, key: Key, free: seq<nat>)
    requires NoDup(free) && HasRoom(t, key, free) && forall i :: i in free ==> i !in SlotsOf(t)
    ensures NoDup(FreeAfter(t, key, free))
    ensures forall i :: i in FreeAfter(t, key, free) ==> i in free && i !in Touched(t, key, free)
  {
  }

  lemma InsertKeepsState(a: Slots, b: Slots, root: Option<nat>, root': Option<nat>, head: Option<nat>, head': Option<nat>,
                         t: Tree, key: Key, val: Val, free: seq<nat>)
    requires StateOk(a, root, head, t, free) && HasRoom(t, key, free)
    requires Inserted(a, b, head', root', t, key, val, free)
    ensures StateOk(b, root', head', Insert(t, key, val, NextSlot(free), NextTag(a, free)), FreeAfter(t, key, free))
  {
    InsertSlots(t, key, val, free, NextTag(a, free));
    InsertBalanced(t, key, val, NextSlot(free), NextTag(a, free));
    FreeAfterFacts(t, key, free);
  }

  lemma InsertChanges(a: Slots, b: Slots, t: Tree, key: Key, val: Val, free: seq<nat>)
    requires Apart(Items(t)) && Ascending(Items(t)) && HasRoom(t, key, free)
    requires NoDup(free) && (forall i :: i in free ==> i !in SlotsOf(t) && i < |a|) && SameOutside(a, b, Touched(t, key, free))
    ensures var t' := Insert(t, key, val, NextSlot(free), NextTag(a, free));
            && InsertEffect(Contents(Items(t)), TagsOf(a, free), Contents(Items(t')), TagsOf(b, FreeAfter(t, key, free)), key, val)
            && |Items(t')| + |FreeAfter(t, key, free)| == |Items(t)| + |free|
            && |Items(t')| == |Items(t)| + if key in Contents(Items(t)) then 0 else 1
  {
    var x := Item(NextSlot(free), key, val, NextTag(a, free));
    InsertItems(t, key, val, x.slot, x.tag);
    InsertedContents(Items(t), x);
    InsertedSlots(Items(t), x);
    FreeAfterFacts(t, key, free);
    TagsFrame(a, b, FreeAfter(t, key, free));
  }

  lemma DeleteKeepsState(a: Slots, b: Slots, root: Option<nat>, root': Option<nat>, head: Option<nat>, head': Option<nat>,
                         t: Tree, key: Key, free: seq<nat>)
    requires StateOk(a, root, head, t, free) && Deleted(a, b, head', root', t, key, free)
    ensures StateOk(b, root', head', Delete(t, key), FreedList(t, key, free))
  {
    DeleteSlots(t, key);
    DeleteBalanced(t, key);
    assert NoDup(FreedList(t, key, free));
  }

  lemma DeleteChanges(a: Slots, b: Slots, head: Option<nat>, root: Option<nat>, t: Tree, key: Key, free: seq<nat>)
    requires Apart(Items(t)) && Ascending(Items(t)) && Deleted(a, b, head, root, t, key, free)
    requires forall i :: i in free ==> i !in SlotsOf(t)
    ensures var m := Contents(Items(t));
            && Contents(Items(Delete(t, key))) == m - {key}
            && TagsOf(b, FreedList(t, key, free)) == (if key in m then [m[key].tag] else []) + TagsOf(a, free)
            && |Items(Delete(t, key))| + |FreedList(t, key, free)| == |Items(t)| + |free|
            && |Items(Delete(t, key))| == |Items(t)| - if key in m then 1 else 0
  {
    DeleteItems(t, key);
    RemovedContents(Items(t), key, Moves(t, key), Items(Delete(t, key)));
    TagsFrame(a, b, free);
    if key in Contents(Items(t)) {
      assert FreedList(t, key, free)[1..] == free;
    }
  }

  lemma {:induction false} FreeInBounds(a: Slots, head: Option<nat>, free: seq<nat>)
    requires IsFree(a, head, free)
    ensures forall i :: i in free ==> i < |a|
    decreases |free|
  {
    if free != [] {
      FreeInBounds(a, a[free[0]].left, free[1..]);
      assert free == [free[0]] + free[1..];
    }
  }

  /** What an insertion tells the caller of the map. */
  datatype Insertion = Insertion(replaced: Option<Val>, tag: Tag)

  const MAX_CAPACITY := 65535

  /** The sixteen bits that stand for a slot number: one more than it, so that zero stands for none. */
  function StoredIndex(i: Option<nat>): nat {
    if i.None? then 0 else (i.value % 65536 + 1) % 65536
  }

  function LoadedIndex(stored: nat): Option<nat> {
    if stored == 0 then None else Some(stored - 1)
  }

  /** A slot number can be stored exactly if the arena it belongs to is small enough. */
  lemma IndexRoundTrip(i: nat)
    ensures LoadedIndex(StoredIndex(Some(i))) == Some(i) <==> i < 65535
    ensures LoadedIndex(StoredIndex(None)) == None && StoredIndex(Some(i)) < 65536
  {
  }

  /** Links all slots as unused, from the last to the first. */
  method LinkFree(arena: array<Slot>) returns (head: Option<nat>)
    modifies arena
    ensures IsFree(arena[..], head, Upto(0, arena.Length))
    ensures forall k :: 0 <= k < arena.Length ==> arena[k].tag == old(arena[k]).tag
    ensures forall k :: 0 <= k < arena.Length ==> !arena[k].used && arena[k].height == 0 && arena[k].right == None
  {
    head := None;
    var i: nat := arena.Length;
    while 0 < i
      invariant i <= arena.Length && IsFree(arena[..], head, Upto(i, arena.Length))
      invariant forall k :: 0 <= k < arena.Length ==> arena[k].tag == old(arena[k]).tag
      invariant forall k :: i <= k < arena.Length ==> !arena[k].used && arena[k].height == 0 && arena[k].right == None
    {
      i := i - 1;
      ghost var b := arena[..];
      arena[i] := arena[i].(used := false, height := 0, right := None, left := head);
      FreeFrame(b, arena[..], head, Upto(i + 1, arena.Length));
      head := Some(i);
      assert Upto(i, arena.Length)[1..] == Upto(i + 1, arena.Length);
    }
  }

  class AvlTreeMap {
    const arena: array<Slot>
    var root: Option<nat>
    var freeHead: Option<nat>
    var len: nat
    ghost var tree: Tree
    ghost var free: seq<nat>

    ghost predicate Valid()
      reads this, arena
    {
      && arena.Length <= MAX_CAPACITY
      && StateOk(arena[..], root, freeHead, tree, free)
      && len == |Items(tree)| && len + |free| == arena.Length
    }

    /** What the map holds. */
    ghost function Map(): map<Key, Entry>
      reads this
    {
      Contents(Items(tree))
    }

    /** The tags that belong to no key. */
    ghost function FreeTags(): seq<Tag>
      reads this, arena
    {
      TagsOf(arena[..], free)
    }

    /** All slots of the given memory are unused; they keep their tags. */
    constructor (arena: array<Slot>)
      requires arena.Length <= MAX_CAPACITY
      modifies arena
      ensures Valid() && this.arena == arena && Map() == map[]
      ensures FreeTags() == TagsOf(old(arena[..]), Upto(0, arena.Length))
    {
      this.arena := arena;
      root, freeHead, len, tree, free := None, None, 0, Leaf, Upto(0, arena.Length);
      new;
      ghost var a := arena[..];
      freeHead := LinkFree(arena);
      TagsSame(a, arena[..], free);
    }

    /** Sets the value of `key`, unless it is new and there is no unused slot. A new key takes on the
        first of the free tags; one that was there keeps its tag. */
    method Insert(key: Key, val: Val) returns (r: Option<Insertion>)
      requires Valid()
      modifies this, arena
      ensures Valid()
      ensures r == None <==> key !in old(Map()) && old(len) == arena.Length
      ensures r == None ==> Map() == old(Map()) && FreeTags() == old(FreeTags())
      ensures r.Some? ==>
                && InsertEffect(old(Map()), old(FreeTags()), Map(), FreeTags(), key, val)
                && r.value == Insertion(if key in old(Map()) then Some(old(Map())[key].val) else None, Map()[key].tag)
    {
      ghost var a := arena[..];
      FreeInBounds(a, freeHead, free);
      ghost var oldRoot, oldHead := root, freeHead;
      var result, replaced, tag, added := InsertRec(root, key, val, tree, free);
      if result == Full {
        return None;
      }
      root := result.root;
      if added {
        len := len + 1;
      }
      InsertKeepsState(a, arena[..], oldRoot, root, oldHead, freeHead, tree, key, val, free);
      InsertChanges(a, arena[..], tree, key, val, free);
      free, tree := FreeAfter(tree, key, free), AvlTree.Insert(tree, key, val, NextSlot(free), NextTag(a, free));
      return Some(Insertion(replaced, tag.value));
    }

    /** Removes `key`. Its tag becomes the first of the free tags; no other key's tag changes. */
    method Remove(key: Key) returns (removed: Option<Val>)
      requires Valid()
      modifies this, arena
      ensures Valid()
      ensures Map() == old(Map()) - {key}
      ensures removed == if key in old(Map()) then Some(old(Map())[key].val) else None
      ensures FreeTags() == (if key in old(Map()) then [old(Map())[key].tag] else []) + old(FreeTags())
    {
      ghost var a := arena[..];
      ghost var oldRoot, oldHead := root, freeHead;
      var did;
      root, removed, did := DeleteRec(root, key, tree, free);
      DeleteKeepsState(a, arena[..], oldRoot, root, oldHead, freeHead, tree, key, free);
      DeleteChanges(a, arena[..], freeHead, root, tree, key, free);
      if did {
        len := len - 1;
      }
      free, tree := FreedList(tree, key, free), Delete(tree, key);
    }

    /** The value and the tag of `key`. */
    method Get(key: Key) returns (r: Option<Entry>)
      requires Valid()
      ensures r == if key in Map() then Some(Map()[key]) else None
    {
      var cur := root;
      ghost var c := tree;
      while cur.Some?
        invariant Repr(arena[..], cur, c) && Ascending(Items(c))
        invariant key in Map() <==> key in Contents(Items(c))
        invariant key in Map() ==> Map()[key] == Contents(Items(c))[key]
        decreases c
      {
        var n := arena[cur.value];
        ContentsInNode(Items(c.left), c.item, Items(c.right), key);
        NodeParts(Items(c.left), c.item, Items(c.right));
        if key == n.key {
          return Some(Entry(n.val, n.tag));
        } else if key < n.key {
          cur, c := n.left, c.left;
        } else {
          cur, c := n.right, c.right;
        }
      }
      return None;
    }

    /** The entry with the greatest key that is not above `key`. */
    method GetLte(key: Key) returns (r: Option<(Key, Entry)>)
      requires Valid()
      ensures r == None <==> forall k :: k in Map() ==> key < k
      ensures r.Some? ==>
                && r.value.0 in Map() && r.value.0 <= key && r.value.1 == Map()[r.value.0]
                && forall k :: k in Map() && k <= key ==> k <= r.value.0
    {
      var cur := root;
      ghost var c := tree;
      var best: Option<nat> := None;
      ghost var floor: Option<Key> := None;
      while cur.Some?
        invariant Repr(arena[..], cur, c) && Ascending(Items(c))
        invariant forall k :: k in Contents(Items(c)) ==> k in Map() && Map()[k] == Contents(Items(c))[k]
        invariant floor.Some? <==> best.Some?
        invariant floor.Some? ==>
                    && best.value < arena.Length && arena[best.value].key == floor.value <= key
                    && floor.value in Map() && Map()[floor.value] == Entry(arena[best.value].val, arena[best.value].tag)
        invariant forall k :: k in Map() && k <= key ==> k in Contents(Items(c)) || (floor.Some? && k <= floor.value)
        invariant forall k :: k in Contents(Items(c)) ==> floor.Some? ==> floor.value < k
        decreases c
      {
        var n := arena[cur.value];
        SplitContents(c);
        if key == n.key {
          return Some((n.key, Entry(n.val, n.tag)));
        } else if key < n.key {
          cur, c := n.left, c.left;
        } else {
          best, floor := cur, Some(n.key);
          cur, c := n.right, c.right;
        }
      }
      if best.Some? {
        var n := arena[best.value];
        return Some((n.key, Entry(n.val, n.tag)));
      }
      return None;
    }

    /** How many keys the map holds. */
    method Len() returns (n: nat)
      requires Valid()
      ensures n == |Map()|
    {
      ContentsSize(Items(tree));
      return len;
    }

    /** Recomputes the height of a node from its children. */
    method UpdateHeight(i: nat)
      requires i < arena.Length
      requires arena[i].left.Some? ==> arena[i].left.value < arena.Length
      requires arena[i].right.Some? ==> arena[i].right.value < arena.Length
      modifies arena
      ensures arena[..] == old(arena[..])[i := old(arena[i]).(height :=
                1 + Max(HeightAt(old(arena[..]), old(arena[i]).left), HeightAt(old(arena[..]), old(arena[i]).right)))]
    {
      var lh := if arena[i].left.Some? then arena[arena[i].left.value].height else 0;
      var rh := if arena[i].right.Some? then arena[arena[i].right.value].height else 0;
      arena[i] := arena[i].(height := 1 + Max(lh, rh));
    }

    method RotateRight(y: nat, ghost t: Tree) returns (x: nat)
      requires t.Node? && t.left.Node? && t.item.slot == y && Apart(Items(t)) && Linked(arena[..], t)
      modifies arena
      ensures x == t.left.item.slot && Repr(arena[..], Some(x), AvlTree.RotateRight(t))
      ensures SameOutside(old(arena[..]), arena[..], SlotsOf(t))
    {
      ghost var a := arena[..];
      RightPair(t);
      x := arena[y].left.value;
      var t2 := arena[x].right;
      arena[x] := arena[x].(right := Some(y));
      arena[y] := arena[y].(left := t2);
      assert arena[..] == a[x := a[x].(right := Some(y))][y := a[y].(left := t2)];
      HeightAtIs(a, arena[..], t2, t.left.right);
      HeightAtIs(a, arena[..], a[y].right, t.right);
      UpdateHeight(y);
      HeightAtIs(a, arena[..], a[x].left, t.left.left);
      UpdateHeight(x);
      RotatedRight(a, arena[..], t);
    }

    method RotateLeft(x: nat, ghost t: Tree) returns (y: nat)
      requires t.Node? && t.right.Node? && t.item.slot == x && Apart(Items(t)) && Linked(arena[..], t)
      modifies arena
      ensures y == t.right.item.slot && Repr(arena[..], Some(y), AvlTree.RotateLeft(t))
      ensures SameOutside(old(arena[..]), arena[..], SlotsOf(t))
    {
      ghost var a := arena[..];
      LeftPair(t);
      y := arena[x].right.value;
      var t2 := arena[y].left;
      arena[y] := arena[y].(left := Some(x));
      arena[x] := arena[x].(right := t2);
      assert arena[..] == a[y := a[y].(left := Some(x))][x := a[x].(right := t2)];
      HeightAtIs(a, arena[..], t2, t.right.left);
      HeightAtIs(a, arena[..], a[x].left, t.left);
      UpdateHeight(x);
      HeightAtIs(a, arena[..], a[y].right, t.right.right);
      UpdateHeight(y);
      RotatedLeft(a, arena[..], t);
    }

    /** The height of the left subtree less that of the right. */
    method BalanceFactorAt(i: nat, ghost t: Tree) returns (f: int)
      requires Repr(arena[..], Some(i), t)
      ensures f == BalanceFactor(t)
    {
      ghost var a := arena[..];
      HeightAtIs(a, a, a[i].left, t.left);
      HeightAtIs(a, a, a[i].right, t.right);
      var lh := if arena[i].left.Some? then arena[arena[i].left.value].height else 0;
      var rh := if arena[i].right.Some? then arena[arena[i].right.value].height else 0;
      return lh - rh;
    }

    method FixLeftHeavy(i: nat, ghost t: Tree) returns (r: nat)
      requires t.Node? && Apart(Items(t)) && Repr(arena[..], Some(i), t) && 1 < BalanceFactor(t)
      modifies arena
      ensures Repr(arena[..], Some(r), AvlTree.Rebalance(t))
      ensures SameOutside(old(arena[..]), arena[..], SlotsOf(t))
    {
      ghost var a := arena[..];
      NodeSlots(t);
      NodeApart(t);
      var l := arena[i].left.value;
      var f := BalanceFactorAt(l, t.left);
      if f < 0 {
        var nl := RotateLeft(l, t.left);
        ghost var b := arena[..];
        ghost var t' := Node(AvlTree.RotateLeft(t.left), t.item, t.right);
        RotateLeftKeepsItems(t.left);
        arena[i] := arena[i].(left := Some(nl));
        LeftReplaced(a, b, arena[..], t, t'.left, Some(nl), SlotsOf(t.left));
        r := RotateRight(i, t');
      } else {
        r := RotateRight(i, t);
      }
    }

    method FixRightHeavy(i: nat, ghost t: Tree) returns (l: nat)
      requires t.Node? && Apart(Items(t)) && Repr(arena[..], Some(i), t) && BalanceFactor(t) < -1
      modifies arena
      ensures Repr(arena[..], Some(l), AvlTree.Rebalance(t))
      ensures SameOutside(old(arena[..]), arena[..], SlotsOf(t))
    {
      ghost var a := arena[..];
      NodeSlots(t);
      NodeApart(t);
      var r := arena[i].right.value;
      var f := BalanceFactorAt(r, t.right);
      if 0 < f {
        var nr := RotateRight(r, t.right);
        ghost var b := arena[..];
        ghost var t' := Node(t.left, t.item, AvlTree.RotateRight(t.right));
        RotateRightKeepsItems(t.right);
        arena[i] := arena[i].(right := Some(nr));
        RightReplaced(a, b, arena[..], t, t'.right, Some(nr), SlotsOf(t.right));
        l := RotateLeft(i, t');
      } else {
        l := RotateLeft(i, t);
      }
    }

    /** Brings a subtree back into balance after one of its children has changed. */
    method Rebalance(i: nat, ghost t: Tree) returns (r: nat)
      requires t.Node? && t.item.slot == i && Apart(Items(t)) && Linked(arena[..], t)
      modifies arena
      ensures Repr(arena[..], Some(r), AvlTree.Rebalance(t))
      ensures SameOutside(old(arena[..]), arena[..], SlotsOf(t))
    {
      ghost var a := arena[..];
      NodeSlots(t);
      HeightAtIs(a, a, a[i].left, t.left);
      HeightAtIs(a, a, a[i].right, t.right);
      UpdateHeight(i);
      HeightSet(a, arena[..], t);
      var f := BalanceFactorAt(i, t);
      if 1 < f {
        r := FixLeftHeavy(i, t);
      } else if f < -1 {
        r := FixRightHeavy(i, t);
      } else {
        r := i;
      }
    }

    /** Links a changed left subtree to its parent and rebalances. */
    method AttachLeft(i: nat, child: Option<nat>, ghost a: Slots, ghost t: Tree, ghost l: Tree, ghost touched: set<nat>)
      returns (r: nat)
      requires t.Node? && t.item.slot == i && Linked(a, t) && Apart(Items(Node(l, t.item, t.right)))
      requires SameOutside(a, arena[..], touched) && Repr(arena[..], child, l)
      requires i !in touched && forall s :: s in SlotsOf(t.right) ==> s !in touched
      modifies arena
      ensures Repr(arena[..], Some(r), AvlTree.Rebalance(Node(l, t.item, t.right)))
      ensures SameOutside(old(arena[..]), arena[..], SlotsOf(Node(l, t.item, t.right)))
    {
      ghost var b := arena[..];
      ghost var t' := Node(l, t.item, t.right);
      NodeApart(t');
      NodeSlots(t');
      arena[i] := arena[i].(left := child);
      LeftReplaced(a, b, arena[..], t, l, child, touched);
      r := Rebalance(i, t');
    }

    method AttachRight(i: nat, child: Option<nat>, ghost a: Slots, ghost t: Tree, ghost r: Tree, ghost touched: set<nat>)
      returns (l: nat)
      requires t.Node? && t.item.slot == i && Linked(a, t) && Apart(Items(Node(t.left, t.item, r)))
      requires SameOutside(a, arena[..], touched) && Repr(arena[..], child, r)
      requires i !in touched && forall s :: s in SlotsOf(t.left) ==> s !in touched
      modifies arena
      ensures Repr(arena[..], Some(l), AvlTree.Rebalance(Node(t.left, t.item, r)))
      ensures SameOutside(old(arena[..]), arena[..], SlotsOf(Node(t.left, t.item, r)))
    {
      ghost var b := arena[..];
      ghost var t' := Node(t.left, t.item, r);
      NodeApart(t');
      NodeSlots(t');
      arena[i] := arena[i].(right := child);
      RightReplaced(a, b, arena[..], t, r, child, touched);
      l := Rebalance(i, t');
    }

    /** Takes the first unused slot, if there is one, for a new node. The slot keeps its tag. */
    method AllocSlot(key: Key, val: Val, ghost free: seq<nat>) returns (r: Result)
      requires IsFree(arena[..], freeHead, free) && NoDup(free)
      modifies arena, `freeHead
      ensures r == if free == [] then Full else Ok(Some(free[0]))
      ensures free == [] ==> arena[..] == old(arena[..]) && freeHead == old(freeHead)
      ensures free != [] ==>
                && IsFree(arena[..], freeHead, free[1..])
                && SameOutside(old(arena[..]), arena[..], {free[0]})
                && arena[free[0]] == Slot(None, None, old(arena[..])[free[0]].tag, key, val, true, 1)
    {
      ghost var a := arena[..];
      if freeHead == None {
        return Full;
      }
      var i := freeHead.value;
      freeHead := arena[i].left;
      arena[i] := Slot(None, None, arena[i].tag, key, val, true, 1);
      FreeFrame(a, arena[..], freeHead, free[1..]);
      return Ok(Some(i));
    }

    /** Gives `key` the value `val` in a subtree. */
    method InsertRec(at: Option<nat>, key: Key, val: Val, ghost t: Tree, ghost free: seq<nat>)
      returns (r: Result, replaced: Option<Val>, tag: Option<Tag>, added: bool)
      requires TreeOk(arena[..], at, t) && FreeOk(arena[..], freeHead, free, t)
      modifies arena, `freeHead
      ensures r == Full <==> !HasRoom(t, key, free)
      ensures r == Full ==> arena[..] == old(arena[..]) && freeHead == old(freeHead)
      ensures r.Ok? ==>
                && Inserted(old(arena[..]), arena[..], freeHead, r.root, t, key, val, free)
                && Reported(replaced, tag, added, Contents(Items(t)), key, NextTag(old(arena[..]), free))
      decreases t, 1
    {
      replaced, tag, added := None, None, false;
      match at {
        case None =>
          added := true;
          r := AllocSlot(key, val, free);
          if r.Ok? {
            tag := Some(arena[r.root.value].tag);
          }
        case Some(i) =>
          if key == arena[i].key {
            ContentsInNode(Items(t.left), t.item, Items(t.right), key);
            replaced, tag := Some(arena[i].val), Some(arena[i].tag);
            SetVal(i, key, val, t, free);
            r := Ok(Some(i));
          } else if key < arena[i].key {
            r, replaced, tag, added := InsertLeft(i, key, val, t, free);
          } else {
            r, replaced, tag, added := InsertRight(i, key, val, t, free);
          }
      }
    }

    method SetVal(i: nat, ghost key: Key, val: Val, ghost t: Tree, ghost free: seq<nat>)
      requires TreeOk(arena[..], Some(i), t) && FreeOk(arena[..], freeHead, free, t)
      requires key == arena[i].key && key in Contents(Items(t))
      modifies arena
      ensures Inserted(old(arena[..]), arena[..], freeHead, Some(i), t, key, val, free)
    {
      ghost var a := arena[..];
      NodeSlots(t);
      NodeApart(t);
      arena[i] := arena[i].(val := val);
      ReprFrame(a, arena[..], a[i].left, t.left);
      ReprFrame(a, arena[..], a[i].right, t.right);
      FreeStays(a, arena[..], freeHead, t, key, free);
    }

    method InsertLeft(i: nat, key: Key, val: Val, ghost t: Tree, ghost free: seq<nat>)
      returns (r: Result, replaced: Option<Val>, tag: Option<Tag>, added: bool)
      requires TreeOk(arena[..], Some(i), t) && FreeOk(arena[..], freeHead, free, t) && key < arena[i].key
      modifies arena, `freeHead
      ensures r == Full <==> !HasRoom(t, key, free)
      ensures r == Full ==> arena[..] == old(arena[..]) && freeHead == old(freeHead)
      ensures r.Ok? ==>
                && Inserted(old(arena[..]), arena[..], freeHead, r.root, t, key, val, free)
                && Reported(replaced, tag, added, Contents(Items(t)), key, NextTag(old(arena[..]), free))
      decreases t, 0
    {
      ghost var a := arena[..];
      SideFacts(t, key);
      r, replaced, tag, added := InsertRec(arena[i].left, key, val, t.left, free);
      if r.Ok? {
        ghost var b := arena[..];
        InsertBelow(t, key, val, free, NextTag(a, free));
        ghost var l := AvlTree.Insert(t.left, key, val, NextSlot(free), NextTag(a, free));
        var i' := AttachLeft(i, r.root, a, t, l, Touched(t.left, key, free));
        r := Ok(Some(i'));
        FreeStays(b, arena[..], freeHead, t, key, free);
      }
    }

    method InsertRight(i: nat, key: Key, val: Val, ghost t: Tree, ghost free: seq<nat>)
      returns (r: Result, replaced: Option<Val>, tag: Option<Tag>, added: bool)
      requires TreeOk(arena[..], Some(i), t) && FreeOk(arena[..], freeHead, free, t) && arena[i].key < key
      modifies arena, `freeHead
      ensures r == Full <==> !HasRoom(t, key, free)
      ensures r == Full ==> arena[..] == old(arena[..]) && freeHead == old(freeHead)
      ensures r.Ok? ==>
                && Inserted(old(arena[..]), arena[..], freeHead, r.root, t, key, val, free)
                && Reported(replaced, tag, added, Contents(Items(t)), key, NextTag(old(arena[..]), free))
      decreases t, 0
    {
      ghost var a := arena[..];
      SideFacts(t, key);
      r, replaced, tag, added := InsertRec(arena[i].right, key, val, t.right, free);
      if r.Ok? {
        ghost var b := arena[..];
        InsertBelow(t, key, val, free, NextTag(a, free));
        ghost var sub := AvlTree.Insert(t.right, key, val, NextSlot(free), NextTag(a, free));
        var i' := AttachRight(i, r.root, a, t, sub, Touched(t.right, key, free));
        r := Ok(Some(i'));
        FreeStays(b, arena[..], freeHead, t, key, free);
      }
    }

    /** Puts a slot in front of the unused ones. It keeps its tag. */
    method FreeSlot(i: nat, ghost free: seq<nat>)
      requires i < arena.Length && IsFree(arena[..], freeHead, free) && i !in free
      modifies arena, `freeHead
      ensures IsFree(arena[..], freeHead, [i] + free)
      ensures SameOutside(old(arena[..]), arena[..], {i}) && arena[i].tag == old(arena[i]).tag
      ensures !arena[i].used && arena[i].height == 0 && arena[i].right == None
    {
      ghost var a := arena[..];
      arena[i] := arena[i].(used := false, height := 0, right := None, left := freeHead);
      FreeFrame(a, arena[..], freeHead, free);
      freeHead := Some(i);
      assert ([i] + free)[1..] == free;
    }

    /** The slot of the first node of a subtree. */
    method MinIndex(start: nat, ghost t: Tree) returns (i: nat)
      requires t.Node? && Repr(arena[..], Some(start), t)
      ensures i == Min(t).slot && i < arena.Length && Stores(arena[i], Min(t))
    {
      i := start;
      ghost var c := t;
      while arena[i].left.Some?
        invariant c.Node? && Repr(arena[..], Some(i), c) && Min(c) == Min(t)
        decreases c
      {
        i := arena[i].left.value;
        c := c.left;
      }
    }

    method DeleteHere(i: nat, ghost t: Tree, ghost free: seq<nat>) returns (r: Option<nat>)
      requires TreeOk(arena[..], Some(i), t) && FreeOk(arena[..], freeHead, free, t)
      requires arena[i].left == None || arena[i].right == None
      modifies arena, `freeHead
      ensures t.item.key in Contents(Items(t))
      ensures Deleted(old(arena[..]), arena[..], freeHead, r, t, t.item.key, free)
    {
      ghost var a := arena[..];
      Shapes(a, i, t);
      NodeSlots(t);
      NodeApart(t);
      OneChild(t);
      r := if arena[i].left == None then arena[i].right else arena[i].left;
      FreeSlot(i, free);
      ReprFrame(a, arena[..], r, if a[i].left == None then t.right else t.left);
    }

    /** The next node's item moves up into node `i`, whose tag goes to the next node. */
    method MoveUp(i: nat, ghost t: Tree, ghost free: seq<nat>) returns (key: Key)
      requires TreeOk(arena[..], Some(i), t) && FreeOk(arena[..], freeHead, free, t)
      requires arena[i].left.Some? && arena[i].right.Some?
      modifies arena
      ensures t.Node? && t.left.Node? && t.right.Node? && key == Min(t.right).key
      ensures Linked(arena[..], Raised(t)) && IsFree(arena[..], freeHead, free)
      ensures SameOutside(old(arena[..]), arena[..], SlotsOf(t))
    {
      ghost var a := arena[..];
      Shapes(a, i, t);
      NodeSlots(t);
      NodeApart(t);
      NodeParts(Items(t.left), t.item, Items(t.right));
      RetagFacts(t.right, t.item.tag);
      var succ := MinIndex(arena[i].right.value, t.right);
      var s := arena[succ];
      arena[succ] := arena[succ].(tag := arena[i].tag);
      arena[i] := arena[i].(key := s.key, val := s.val, tag := s.tag);
      ghost var c := arena[..];
      assert c == a[succ := a[succ].(tag := a[i].tag)][i := a[i].(key := s.key, val := s.val, tag := s.tag)];
      RetagRepr(a, c, a[i].right, t.right, t.item.tag);
      ReprFrame(a, c, a[i].left, t.left);
      FreeFrame(a, c, freeHead, free);
      return s.key;
    }

    method DeleteTwo(i: nat, ghost t: Tree, ghost free: seq<nat>) returns (r: Option<nat>)
      requires TreeOk(arena[..], Some(i), t) && FreeOk(arena[..], freeHead, free, t)
      requires arena[i].left.Some? && arena[i].right.Some?
      modifies arena, `freeHead
      ensures t.item.key in Contents(Items(t))
      ensures Deleted(old(arena[..]), arena[..], freeHead, r, t, t.item.key, free)
      decreases Height(t), 0
    {
      var key := MoveUp(i, t, free);
      ghost var c, t1 := arena[..], Raised(t);
      RaisedFacts(t);
      var right, _, _ := DeleteRec(arena[i].right, key, t1.right, free);
      ghost var b := arena[..];
      var top := AttachRight(i, right, c, t1, Delete(t1.right, key), SlotsOf(t1.right));
      FreedStays(b, arena[..], freeHead, t, t.item.key, free);
      return Some(top);
    }

    method DeleteLeft(i: nat, key: Key, ghost t: Tree, ghost free: seq<nat>)
      returns (r: Option<nat>, removed: Option<Val>, did: bool)
      requires TreeOk(arena[..], Some(i), t) && FreeOk(arena[..], freeHead, free, t) && key < arena[i].key
      modifies arena, `freeHead
      ensures Deleted(old(arena[..]), arena[..], freeHead, r, t, key, free)
      ensures RemovalReported(removed, did, Contents(Items(t)), key)
      decreases Height(t), 0
    {
      ghost var a := arena[..];
      SideFacts(t, key);
      DeleteBelow(t, key);
      if key in Contents(Items(t)) {
        FreedBelow(t, key);
      }
      var left;
      left, removed, did := DeleteRec(arena[i].left, key, t.left, free);
      ghost var b := arena[..];
      var top := AttachLeft(i, left, a, t, Delete(t.left, key), SlotsOf(t.left));
      FreedStays(b, arena[..], freeHead, t, key, free);
      r := Some(top);
    }

    method DeleteRight(i: nat, key: Key, ghost t: Tree, ghost free: seq<nat>)
      returns (r: Option<nat>, removed: Option<Val>, did: bool)
      requires TreeOk(arena[..], Some(i), t) && FreeOk(arena[..], freeHead, free, t) && arena[i].key < key
      modifies arena, `freeHead
      ensures Deleted(old(arena[..]), arena[..], freeHead, r, t, key, free)
      ensures RemovalReported(removed, did, Contents(Items(t)), key)
      decreases Height(t), 0
    {
      ghost var a := arena[..];
      SideFacts(t, key);
      DeleteBelow(t, key);
      if key in Contents(Items(t)) {
        FreedBelow(t, key);
      }
      var right;
      right, removed, did := DeleteRec(arena[i].right, key, t.right, free);
      ghost var b := arena[..];
      var top := AttachRight(i, right, a, t, Delete(t.right, key), SlotsOf(t.right));
      FreedStays(b, arena[..], freeHead, t, key, free);
      r := Some(top);
    }

    /** Removes `key` from a subtree. */
    method DeleteRec(at: Option<nat>, key: Key, ghost t: Tree, ghost free: seq<nat>)
      returns (r: Option<nat>, removed: Option<Val>, did: bool)
      requires TreeOk(arena[..], at, t) && FreeOk(arena[..], freeHead, free, t)
      modifies arena, `freeHead
      ensures Deleted(old(arena[..]), arena[..], freeHead, r, t, key, free)
      ensures RemovalReported(removed, did, Contents(Items(t)), key)
      decreases Height(t), 1
    {
      match at {
        case None =>
          return None, None, false;
        case Some(i) =>
          if key < arena[i].key {
            r, removed, did := DeleteLeft(i, key, t, free);
          } else if arena[i].key < key {
            r, removed, did := DeleteRight(i, key, t, free);
          } else {
            ContentsInNode(Items(t.left), t.item, Items(t.right), key);
            removed, did := Some(arena[i].val), true;
            if arena[i].left == None || arena[i].right == None {
              r := DeleteHere(i, t, free);
            } else {
              r := DeleteTwo(i, t, free);
            }
          }
      }
    }
  }

  // ---------- Iteration ----------

  const MAX_HEIGHT := 128

  lemma Pow2Step(n: nat)
    ensures Pow2(n + 4) == 16 * Pow2(n)
  {
    assert Pow2(n + 2) == 4 * Pow2(n);
    assert Pow2(n + 4) == 4 * Pow2(n + 2);
  }

  lemma BalancedIsLow(t: Tree)
    requires Balanced(t) && |Items(t)| <= MAX_CAPACITY
    ensures Height(t) < 34
  {
    HeightIsLogarithmic(t);
    Pow2Step(0);
    Pow2Step(4);
    Pow2Step(8);
    Pow2Step(12);
    assert Pow2(17) == 2 * Pow2(16);
    if 34 <= Height(t) {
      Pow2Grows(17, Height(t) / 2);
      assert false;
    }
  }

  /** No tree that fits into an arena is as high as the iterator's stack, or as seven bits can say.
      That goes for a root whose height is recomputed before it is balanced: only the trees below it
      need to be. */
  lemma HeightFits(t: Tree)
    requires t.Node? ==> Balanced(t.left) && Balanced(t.right)
    requires |Items(t)| <= 65535
    ensures Height(t) < 128
  {
    if t.Node? {
      BalancedIsLow(t.left);
      BalancedIsLow(t.right);
    }
  }

  /** What remains to be visited when the trees on the stack have been entered from the left. */
  ghost function Above(trees: seq<Tree>): seq<Item> {
    if trees == [] then []
    else
      var top := trees[|trees| - 1];
      (if top.Node? then [top.item] + Items(top.right) else []) + Above(trees[..|trees| - 1])
  }

  lemma AboveAppend(trees: seq<Tree>, t: Tree)
    requires t.Node?
    ensures Above(trees + [t]) == [t.item] + Items(t.right) + Above(trees)
    ensures Items(t) + Above(trees) == Items(t.left) + Above(trees + [t])
  {
    assert (trees + [t])[..|trees|] == trees;
    assert Items(t.left) + ([t.item] + Items(t.right) + Above(trees)) == Items(t) + Above(trees);
  }

  lemma AbovePop(trees: seq<Tree>)
    requires trees != [] && trees[|trees| - 1].Node?
    ensures var n := |trees| - 1;
            Above(trees) == [trees[n].item] + (Items(trees[n].right) + Above(trees[..n]))
  {
  }

  /** A slot on the stack, at a place where its tree is low enough. */
  ghost predicate OnStack(a: Slots, slot: nat, t: Tree, k: nat) {
    t.Node? && Repr(a, Some(slot), t) && k + Height(t) <= MAX_HEIGHT
  }

  ghost predicate StackOk(a: Slots, stack: seq<nat>, trees: seq<Tree>) {
    |trees| <= |stack| && forall k :: 0 <= k < |trees| ==> OnStack(a, stack[k], trees[k], k)
  }

  lemma StackPush(a: Slots, stack: seq<nat>, trees: seq<Tree>, t: Tree, i: nat)
    requires StackOk(a, stack, trees) && |stack| == MAX_HEIGHT && OnStack(a, i, t, |trees|)
    ensures |trees| < |stack| && StackOk(a, stack[|trees| := i], trees + [t])
  {
  }

  lemma StackPop(a: Slots, stack: seq<nat>, trees: seq<Tree>)
    requires StackOk(a, stack, trees) && trees != []
    ensures var n := |trees| - 1;
            StackOk(a, stack, trees[..n]) && OnStack(a, stack[n], trees[n], n)
  {
  }

  /** The children of a slot on the stack. */
  lemma OnStackChildren(a: Slots, slot: nat, t: Tree, k: nat)
    requires OnStack(a, slot, t, k)
    ensures slot < |a| && Stores(a[slot], t.item)
    ensures Repr(a, a[slot].left, t.left) && k + 1 + Height(t.left) <= MAX_HEIGHT
    ensures Repr(a, a[slot].right, t.right) && k + Height(t.right) <= MAX_HEIGHT
  {
  }

  /** Visits the items in order, with a stack of fixed size. */
  class AvlIter {
    const arena: array<Slot>
    const stack: array<nat>
    var sp: nat
    var cursor: Option<nat>
    ghost var trees: seq<Tree>
    ghost var current: Tree

    ghost predicate Valid()
      reads this, arena, stack
    {
      && stack.Length == MAX_HEIGHT && (stack as object) != (arena as object)
      && sp == |trees| && sp + Height(current) <= MAX_HEIGHT && Repr(arena[..], cursor, current)
      && StackOk(arena[..], stack[..], trees)
    }

    /** The items still to come. */
    ghost function Pending(): seq<Item>
      reads this
    {
      Items(current) + Above(trees)
    }

    constructor (m: AvlTreeMap)
      requires m.Valid()
      ensures Valid() && fresh(stack) && arena == m.arena && Pending() == Items(m.tree)
    {
      arena, stack := m.arena, new nat[MAX_HEIGHT](_ => 0);
      sp, cursor, trees, current := 0, m.root, [], m.tree;
      HeightFits(m.tree);
    }

    /** Goes down to the left as far as possible. The stack is high enough for that. */
    method PushLeftChain()
      requires Valid()
      modifies this, stack
      ensures Valid() && Pending() == old(Pending()) && cursor == None && current == Leaf
    {
      while cursor.Some?
        invariant Valid() && Pending() == old(Pending())
        decreases current
      {
        PushCursor();
      }
    }

    method PushCursor()
      requires Valid() && cursor.Some?
      modifies this, stack
      ensures Valid() && Pending() == old(Pending()) && old(current).Node? && current == old(current).left
    {
      var i := cursor.value;
      AboveAppend(trees, current);
      StackPush(arena[..], stack[..], trees, current, i);
      OnStackChildren(arena[..], i, current, sp);
      ghost var before := stack[..];
      stack[sp] := i;
      assert stack[..] == before[sp := i];
      sp := sp + 1;
      cursor := arena[i].left;
      trees, current := trees + [current], current.left;
    }

    method Next() returns (r: Option<(Key, Val)>)
      requires Valid()
      modifies this, stack
      ensures Valid()
      ensures r == None <==> old(Pending()) == []
      ensures r.Some? ==>
                && r.value == (old(Pending())[0].key, old(Pending())[0].val)
                && Pending() == old(Pending())[1..]
    {
      PushLeftChain();
      assert Pending() == Above(trees);
      if sp == 0 {
        return None;
      }
      StackPop(arena[..], stack[..], trees);
      AbovePop(trees);
      sp := sp - 1;
      var i := stack[sp];
      OnStackChildren(arena[..], i, trees[sp], sp);
      cursor := arena[i].right;
      trees, current := trees[..sp], trees[sp].right;
      return Some((arena[i].key, arena[i].val));
    }
  }

  /** What the iterator hands out until its end. */
  method Collect(iter: AvlIter) returns (pairs: seq<(Key, Val)>)
    requires iter.Valid()
    modifies iter, iter.stack
    ensures |pairs| == |old(iter.Pending())|
    ensures forall k :: 0 <= k < |pairs| ==> pairs[k] == (old(iter.Pending())[k].key, old(iter.Pending())[k].val)
    decreases |iter.Pending()|
  {
    var first := iter.Next();
    if first == None {
      return [];
    }
    var rest := Collect(iter);
    return [first.value] + rest;
  }

  lemma ListedOnce(items: seq<Item>, k: nat)
    requires Ascending(items) && k < |items|
    ensures items[k].key in Contents(items) && Contents(items)[items[k].key].val == items[k].val
    ensures |Contents(items)| == |items|
  {
    PositionIs(items, items[k].key, k);
    ContentsHas(items, items[k].key);
    ContentsSize(items);
  }

  /** Iteration lists every key of the map once, in ascending order, with its value. */
  method Entries(m: AvlTreeMap) returns (pairs: seq<(Key, Val)>)
    requires m.Valid()
    ensures |pairs| == |m.Map()|
    ensures forall k, l :: 0 <= k < l < |pairs| ==> pairs[k].0 < pairs[l].0
    ensures forall k :: 0 <= k < |pairs| ==> pairs[k].0 in m.Map() && m.Map()[pairs[k].0].val == pairs[k].1
  {
    var iter := new AvlIter(m);
    pairs := Collect(iter);
    ContentsSize(Items(m.tree));
    forall k | 0 <= k < |pairs|
      ensures pairs[k].0 in m.Map() && m.Map()[pairs[k].0].val == pairs[k].1
    {
      ListedOnce(Items(m.tree), k);
    }
  }
}
