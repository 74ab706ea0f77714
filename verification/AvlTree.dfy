/** Height-balanced search trees as values: what the trees of the arena in `AvlArena` look like, and what
    its operations do to them.

    A tree is read through `Items`, its nodes from left to right. Rebalancing does not change that. */
module AvlTree {
  type Key = int
  type Val = int
  type Tag = int

  /** A node as seen from outside: where it is stored, and what it stores. */
  datatype Item = Item(slot: nat, key: Key, val: Val, tag: Tag)

  datatype Tree = Leaf | Node(left: Tree, item: Item, right: Tree)

  function Max(a: nat, b: nat): nat {
    if a < b then b else a
  }

  function Height(t: Tree): nat {
    match t
    case Leaf => 0
    case Node(l, _, r) => 1 + Max(Height(l), Height(r))
  }

  function Items(t: Tree): seq<Item> {
    match t
    case Leaf => []
    case Node(l, x, r) => Items(l) + [x] + Items(r)
  }

  predicate Balanced(t: Tree) {
    match t
    case Leaf => true
    case Node(l, _, r) => Balanced(l) && Balanced(r) && -1 <= Height(l) - Height(r) <= 1
  }

  predicate Ascending(items: seq<Item>) {
    forall i, j :: 0 <= i < j < |items| ==> items[i].key < items[j].key
  }

  // ---------- Rebalancing ----------

  function RotateRight(t: Tree): Tree
    requires t.Node? && t.left.Node?
  {
    Node(t.left.left, t.left.item, Node(t.left.right, t.item, t.right))
  }

  function RotateLeft(t: Tree): Tree
    requires t.Node? && t.right.Node?
  {
    Node(Node(t.left, t.item, t.right.left), t.right.item, t.right.right)
  }

  function BalanceFactor(t: Tree): int
    requires t.Node?
  {
    Height(t.left) - Height(t.right)
  }

  function Rebalance(t: Tree): Tree
    requires t.Node?
  {
    if 1 < BalanceFactor(t) then
      var l := if BalanceFactor(t.left) < 0 then RotateLeft(t.left) else t.left;
      RotateRight(Node(l, t.item, t.right))
    else if BalanceFactor(t) < -1 then
      var r := if 0 < BalanceFactor(t.right) then RotateRight(t.right) else t.right;
      RotateLeft(Node(t.left, t.item, r))
    else t
  }

  lemma Regroup(a: seq<Item>, x: Item, b: seq<Item>, y: Item, c: seq<Item>)
    ensures a + [x] + (b + [y] + c) == (a + [x] + b) + [y] + c
  {
  }

  lemma RotateRightKeepsItems(t: Tree)
    requires t.Node? && t.left.Node?
    ensures Items(RotateRight(t)) == Items(t)
  {
    Regroup(Items(t.left.left), t.left.item, Items(t.left.right), t.item, Items(t.right));
  }

  lemma RotateLeftKeepsItems(t: Tree)
    requires t.Node? && t.right.Node?
    ensures Items(RotateLeft(t)) == Items(t)
  {
    Regroup(Items(t.left), t.item, Items(t.right.left), t.right.item, Items(t.right.right));
  }

  lemma RebalanceKeepsItems(t: Tree)
    requires t.Node?
    ensures Rebalance(t).Node? && Items(Rebalance(t)) == Items(t)
  {
    if 1 < BalanceFactor(t) {
      if BalanceFactor(t.left) < 0 {
        RotateLeftKeepsItems(t.left);
        RotateRightKeepsItems(Node(RotateLeft(t.left), t.item, t.right));
      } else {
        RotateRightKeepsItems(t);
      }
    } else if BalanceFactor(t) < -1 {
      if 0 < BalanceFactor(t.right) {
        RotateRightKeepsItems(t.right);
        RotateLeftKeepsItems(Node(t.left, t.item, RotateRight(t.right)));
      } else {
        RotateLeftKeepsItems(t);
      }
    }
  }

  lemma {:induction false} LeftHeavy(t: Tree)
    requires t.Node? && Balanced(t.left) && Balanced(t.right) && BalanceFactor(t) == 2
    ensures Balanced(Rebalance(t)) && Height(t) - 1 <= Height(Rebalance(t)) <= Height(t)
  {
    var l := t.left;
    if BalanceFactor(l) < 0 {
      assert Rebalance(t) == Node(Node(l.left, l.item, l.right.left), l.right.item, Node(l.right.right, t.item, t.right));
    } else {
      assert Rebalance(t) == Node(l.left, l.item, Node(l.right, t.item, t.right));
    }
  }

  lemma {:induction false} RightHeavy(t: Tree)
    requires t.Node? && Balanced(t.left) && Balanced(t.right) && BalanceFactor(t) == -2
    ensures Balanced(Rebalance(t)) && Height(t) - 1 <= Height(Rebalance(t)) <= Height(t)
  {
    var r := t.right;
    if 0 < BalanceFactor(r) {
      assert Rebalance(t) == Node(Node(t.left, t.item, r.left.left), r.left.item, Node(r.left.right, r.item, r.right));
    } else {
      assert Rebalance(t) == Node(Node(t.left, t.item, r.left), r.item, r.right);
    }
  }

  /** Two balanced subtrees whose heights differ by two at most make a balanced tree, which is at most
      one lower than before, and only if it was out of balance. */
  lemma {:induction false} RebalanceBalances(t: Tree)
    requires t.Node? && Balanced(t.left) && Balanced(t.right) && -2 <= BalanceFactor(t) <= 2
    ensures Balanced(Rebalance(t))
    ensures Height(t) - 1 <= Height(Rebalance(t)) <= Height(t)
    ensures -1 <= BalanceFactor(t) <= 1 ==> Rebalance(t) == t
  {
    if BalanceFactor(t) == 2 {
      LeftHeavy(t);
    } else if BalanceFactor(t) == -2 {
      RightHeavy(t);
    }
  }

  // ---------- Insertion ----------

  /** The tree with `val` for `key`; a new node goes to `slot`, whose tag it takes on. */
  function Insert(t: Tree, key: Key, val: Val, slot: nat, tag: Tag): Tree {
    match t
    case Leaf => Node(Leaf, Item(slot, key, val, tag), Leaf)
    case Node(l, x, r) =>
      if key == x.key then Node(l, x.(val := val), r)
      else if key < x.key then Rebalance(Node(Insert(l, key, val, slot, tag), x, r))
      else Rebalance(Node(l, x, Insert(r, key, val, slot, tag)))
  }

  /** The same on items in order of their keys. */
  function InsertItem(items: seq<Item>, x: Item): seq<Item> {
    if items == [] || x.key < items[0].key then [x] + items
    else if x.key == items[0].key then [items[0].(val := x.val)] + items[1..]
    else [items[0]] + InsertItem(items[1..], x)
  }

  ghost predicate AllBelow(items: seq<Item>, key: Key) {
    forall i :: 0 <= i < |items| ==> items[i].key < key
  }

  ghost predicate AllAbove(items: seq<Item>, key: Key) {
    forall i :: 0 <= i < |items| ==> key < items[i].key
  }

  lemma NodeParts(l: seq<Item>, x: Item, r: seq<Item>)
    requires Ascending(l + [x] + r)
    ensures Ascending(l) && Ascending(r) && AllBelow(l, x.key) && AllAbove(r, x.key)
  {
    var all := l + [x] + r;
    assert forall i :: 0 <= i < |l| ==> all[i] == l[i];
    assert all[|l|] == x;
    assert forall i :: 0 <= i < |r| ==> all[|l| + 1 + i] == r[i];
  }

  /** An item with a key that is not below the first of `r` and everything in `l` goes into `r`. */
  lemma {:induction false} InsertAfter(l: seq<Item>, r: seq<Item>, x: Item)
    requires AllBelow(l, x.key)
    ensures InsertItem(l + r, x) == l + InsertItem(r, x)
  {
    if l == [] {
      assert l + r == r;
    } else {
      assert (l + r)[1..] == l[1..] + r;
      InsertAfter(l[1..], r, x);
      assert [l[0]] + (l[1..] + InsertItem(r, x)) == l + InsertItem(r, x);
    }
  }

  /** An item with a key below the first of `r` goes into `l`. */
  lemma {:induction false} InsertBefore(l: seq<Item>, r: seq<Item>, x: Item)
    requires r != [] && x.key < r[0].key
    ensures InsertItem(l + r, x) == InsertItem(l, x) + r
  {
    if l == [] {
      assert l + r == r;
    } else {
      var y, tail := l[0].(val := x.val), l[1..];
      assert (l + r)[1..] == tail + r;
      if x.key == l[0].key {
        assert [y] + (tail + r) == [y] + tail + r;
      } else if l[0].key < x.key {
        InsertBefore(tail, r, x);
        assert [l[0]] + (InsertItem(tail, x) + r) == [l[0]] + InsertItem(tail, x) + r;
      }
    }
  }

  lemma InsertLeft(l: seq<Item>, x: Item, r: seq<Item>, added: Item)
    requires Ascending(l + [x] + r) && added.key < x.key
    ensures InsertItem(l + [x] + r, added) == InsertItem(l, added) + [x] + r
  {
    assert l + [x] + r == l + ([x] + r);
    InsertBefore(l, [x] + r, added);
    assert InsertItem(l, added) + ([x] + r) == InsertItem(l, added) + [x] + r;
  }

  lemma InsertHere(l: seq<Item>, x: Item, r: seq<Item>, added: Item)
    requires Ascending(l + [x] + r) && x.key == added.key
    ensures InsertItem(l + [x] + r, added) == l + [x.(val := added.val)] + r
  {
    NodeParts(l, x, r);
    assert l + [x] + r == l + ([x] + r);
    InsertAfter(l, [x] + r, added);
    assert ([x] + r)[1..] == r;
    assert l + ([x.(val := added.val)] + r) == l + [x.(val := added.val)] + r;
  }

  lemma InsertRight(l: seq<Item>, x: Item, r: seq<Item>, added: Item)
    requires Ascending(l + [x] + r) && x.key < added.key
    ensures InsertItem(l + [x] + r, added) == l + [x] + InsertItem(r, added)
  {
    NodeParts(l, x, r);
    assert l + [x] + r == l + ([x] + r);
    InsertAfter(l, [x] + r, added);
    assert ([x] + r)[1..] == r;
    assert l + ([x] + InsertItem(r, added)) == l + [x] + InsertItem(r, added);
  }

  /** Insertion into the tree is insertion into its items. */
  lemma {:induction false} InsertItems(t: Tree, key: Key, val: Val, slot: nat, tag: Tag)
    requires Ascending(Items(t))
    ensures Items(Insert(t, key, val, slot, tag)) == InsertItem(Items(t), Item(slot, key, val, tag))
  {
    var added := Item(slot, key, val, tag);
    match t
    case Leaf =>
    case Node(l, x, r) =>
      NodeParts(Items(l), x, Items(r));
      if key < x.key {
        InsertLeft(Items(l), x, Items(r), added);
        InsertItems(l, key, val, slot, tag);
        RebalanceKeepsItems(Node(Insert(l, key, val, slot, tag), x, r));
      } else if x.key < key {
        InsertRight(Items(l), x, Items(r), added);
        InsertItems(r, key, val, slot, tag);
        RebalanceKeepsItems(Node(l, x, Insert(r, key, val, slot, tag)));
      } else {
        InsertHere(Items(l), x, Items(r), added);
      }
  }

  lemma {:induction false} GrowLeft(l: Tree, l': Tree, x: Item, r: Tree)
    requires Balanced(Node(l, x, r)) && Balanced(l') && Height(l) <= Height(l') <= Height(l) + 1
    ensures var t, t' := Node(l, x, r), Rebalance(Node(l', x, r));
            Balanced(t') && t'.Node? && Height(t) <= Height(t') <= Height(t) + 1
  {
    RebalanceBalances(Node(l', x, r));
  }

  lemma {:induction false} GrowRight(l: Tree, x: Item, r: Tree, r': Tree)
    requires Balanced(Node(l, x, r)) && Balanced(r') && Height(r) <= Height(r') <= Height(r) + 1
    ensures var t, t' := Node(l, x, r), Rebalance(Node(l, x, r'));
            Balanced(t') && t'.Node? && Height(t) <= Height(t') <= Height(t) + 1
  {
    RebalanceBalances(Node(l, x, r'));
  }

  /** Insertion keeps the tree balanced and makes it at most one higher. */
  lemma {:induction false} InsertBalanced(t: Tree, key: Key, val: Val, slot: nat, tag: Tag)
    requires Balanced(t)
    ensures var t' := Insert(t, key, val, slot, tag);
            Balanced(t') && t'.Node? && Height(t) <= Height(t') <= Height(t) + 1
  {
    match t
    case Leaf =>
    case Node(l, x, r) =>
      if key < x.key {
        InsertBalanced(l, key, val, slot, tag);
        GrowLeft(l, Insert(l, key, val, slot, tag), x, r);
      } else if x.key < key {
        InsertBalanced(r, key, val, slot, tag);
        GrowRight(l, x, r, Insert(r, key, val, slot, tag));
      }
  }

  // ---------- Removal ----------

  function Min(t: Tree): Item
    requires t.Node?
  {
    if t.left.Leaf? then t.item else Min(t.left)
  }

  /** The tree with another tag on its first item. */
  function WithMinTag(t: Tree, tag: Tag): (r: Tree)
    requires t.Node?
    ensures r.Node? && Height(r) == Height(t) && (Balanced(t) ==> Balanced(r))
  {
    if t.left.Leaf? then t.(item := t.item.(tag := tag)) else t.(left := WithMinTag(t.left, tag))
  }

  /** The tree without `key`. A node with two children is not taken out itself: it takes over what the
      next node stores, its tag goes to that node, and that node is taken out. */
  function Delete(t: Tree, key: Key): Tree
    decreases Height(t)
  {
    match t
    case Leaf => Leaf
    case Node(l, x, r) =>
      if key < x.key then Rebalance(Node(Delete(l, key), x, r))
      else if x.key < key then Rebalance(Node(l, x, Delete(r, key)))
      else if l.Leaf? then r
      else if r.Leaf? then l
      else Rebalance(Node(l, Min(r).(slot := x.slot), Delete(WithMinTag(r, x.tag), Min(r).key)))
  }

  /** Whether removing `key` makes the next item move. */
  predicate Moves(t: Tree, key: Key) {
    match t
    case Leaf => false
    case Node(l, x, r) =>
      if key < x.key then Moves(l, key)
      else if x.key < key then Moves(r, key)
      else l.Node? && r.Node?
  }

  /** The position of a key among items in order, or their number. */
  function Position(items: seq<Item>, key: Key): (p: nat)
    ensures p <= |items|
    ensures p < |items| ==> items[p].key == key
    ensures forall i :: 0 <= i < p ==> items[i].key != key
  {
    if items == [] || items[0].key == key then 0 else 1 + Position(items[1..], key)
  }

  /** The items without number `p`, whose slot the next item takes over if it `moves`. */
  function DropAt(items: seq<Item>, p: nat, moves: bool): seq<Item>
    requires p < |items| && (moves ==> p + 1 < |items|)
  {
    if moves then items[..p] + [items[p + 1].(slot := items[p].slot)] + items[p + 2..]
    else items[..p] + items[p + 1..]
  }

  lemma {:induction false} MinIsFirst(t: Tree, tag: Tag)
    requires t.Node?
    ensures Items(t) != [] && Items(t)[0] == Min(t)
    ensures Items(WithMinTag(t, tag)) == [Min(t).(tag := tag)] + Items(t)[1..]
    ensures !Moves(t, Min(t).key) || !Ascending(Items(t))
  {
    var l, x, r := t.left, t.item, t.right;
    if l.Node? {
      MinIsFirst(l, tag);
      var rest := Items(l)[1..];
      assert Items(t)[1..] == rest + [x] + Items(r);
      if Ascending(Items(t)) {
        NodeParts(Items(l), x, Items(r));
      }
    } else {
      assert Items(t) == [x] + Items(r);
    }
  }

  lemma {:induction false} PositionIs(items: seq<Item>, key: Key, p: nat)
    requires p < |items| && items[p].key == key && forall i :: 0 <= i < p ==> items[i].key != key
    ensures Position(items, key) == p
  {
  }

  /** Where a key is in a tree: left of the root, at the root, or right of it. */
  lemma PositionInNode(l: seq<Item>, x: Item, r: seq<Item>, key: Key)
    requires Ascending(l + [x] + r)
    ensures var p := Position(l + [x] + r, key);
            && (key < x.key ==> if Position(l, key) < |l| then p == Position(l, key) else p == |l + [x] + r|)
            && (key == x.key ==> p == |l|)
            && (x.key < key ==> p == |l| + 1 + Position(r, key))
  {
    NodeParts(l, x, r);
    var all := l + [x] + r;
    assert forall i :: 0 <= i < |l| ==> all[i] == l[i];
    assert forall i :: |l| < i < |all| ==> all[i] == r[i - |l| - 1];
    if key < x.key {
      if Position(l, key) < |l| {
        PositionIs(all, key, Position(l, key));
      }
    } else if key == x.key {
      PositionIs(all, key, |l|);
    } else if Position(r, key) < |r| {
      PositionIs(all, key, |l| + 1 + Position(r, key));
    }
  }

  lemma DropLeft(l: seq<Item>, x: Item, r: seq<Item>, p: nat, moves: bool)
    requires p < |l| && (moves ==> p + 1 < |l|)
    ensures DropAt(l + [x] + r, p, moves) == DropAt(l, p, moves) + [x] + r
  {
    var all := l + [x] + r;
    assert all[..p] == l[..p];
    if moves {
      assert all[p + 2..] == l[p + 2..] + [x] + r;
    } else {
      assert all[p + 1..] == l[p + 1..] + [x] + r;
    }
  }

  lemma DropRight(l: seq<Item>, x: Item, r: seq<Item>, p: nat, moves: bool)
    requires p < |r| && (moves ==> p + 1 < |r|)
    ensures DropAt(l + [x] + r, |l| + 1 + p, moves) == l + [x] + DropAt(r, p, moves)
  {
    var all, q := l + [x] + r, |l| + 1 + p;
    assert all[..q] == l + [x] + r[..p];
    if moves {
      assert all[q + 2..] == r[p + 2..];
    } else {
      assert all[q + 1..] == r[p + 1..];
    }
  }

  /** `rest` is `items` without `key`. */
  ghost predicate Removed(items: seq<Item>, key: Key, moves: bool, rest: seq<Item>) {
    var p := Position(items, key);
    if p == |items| then rest == items && !moves
    else (moves ==> p + 1 < |items|) && rest == DropAt(items, p, moves)
  }

  lemma RemovedLeft(l: seq<Item>, x: Item, r: seq<Item>, key: Key, moves: bool, rest: seq<Item>)
    requires Ascending(l + [x] + r) && key < x.key && Removed(l, key, moves, rest)
    ensures Removed(l + [x] + r, key, moves, rest + [x] + r)
  {
    PositionInNode(l, x, r, key);
    if Position(l, key) < |l| {
      DropLeft(l, x, r, Position(l, key), moves);
    }
  }

  lemma RemovedRight(l: seq<Item>, x: Item, r: seq<Item>, key: Key, moves: bool, rest: seq<Item>)
    requires Ascending(l + [x] + r) && x.key < key && Removed(r, key, moves, rest)
    ensures Removed(l + [x] + r, key, moves, l + [x] + rest)
  {
    PositionInNode(l, x, r, key);
    if Position(r, key) < |r| {
      DropRight(l, x, r, Position(r, key), moves);
    }
  }

  lemma RemovedRoot(l: seq<Item>, x: Item, r: seq<Item>)
    requires Ascending(l + [x] + r)
    ensures Removed(l + [x] + r, x.key, false, l + r)
    ensures r != [] ==> Removed(l + [x] + r, x.key, true, l + [r[0].(slot := x.slot)] + r[1..])
  {
    PositionInNode(l, x, r, x.key);
    var all := l + [x] + r;
    assert all[..|l|] == l && all[|l| + 1..] == r;
    if r != [] {
      assert all[|l| + 1] == r[0] && all[|l| + 2..] == r[1..];
    }
  }

  /** Removal from the tree is removal from its items. */
  lemma {:induction false} DeleteItems(t: Tree, key: Key)
    requires Ascending(Items(t))
    ensures Removed(Items(t), key, Moves(t, key), Items(Delete(t, key)))
    decreases Height(t), 2
  {
    match t
    case Leaf =>
    case Node(l, x, r) =>
      NodeParts(Items(l), x, Items(r));
      if key < x.key {
        DeleteItems(l, key);
        RemovedLeft(Items(l), x, Items(r), key, Moves(l, key), Items(Delete(l, key)));
        RebalanceKeepsItems(Node(Delete(l, key), x, r));
      } else if x.key < key {
        DeleteItems(r, key);
        RemovedRight(Items(l), x, Items(r), key, Moves(r, key), Items(Delete(r, key)));
        RebalanceKeepsItems(Node(l, x, Delete(r, key)));
      } else {
        DeleteRoot(t);
      }
  }

  lemma {:induction false} DeleteRoot(t: Tree)
    requires t.Node? && Ascending(Items(t))
    ensures Removed(Items(t), t.item.key, t.left.Node? && t.right.Node?, Items(Delete(t, t.item.key)))
    decreases Height(t), 1
  {
    var l, x, r := t.left, t.item, t.right;
    RemovedRoot(Items(l), x, Items(r));
    if l.Leaf? {
      assert Items(l) + Items(r) == Items(r);
    } else if r.Leaf? {
      assert Items(l) + Items(r) == Items(l);
    } else {
      NodeParts(Items(l), x, Items(r));
      MinIsFirst(r, x.tag);
      DeleteFirst(r, x.tag);
      RebalanceKeepsItems(Node(l, Min(r).(slot := x.slot), Delete(WithMinTag(r, x.tag), Min(r).key)));
    }
  }

  lemma RemovedFirst(items: seq<Item>, rest: seq<Item>)
    requires items != [] && Removed(items, items[0].key, false, rest)
    ensures rest == items[1..]
  {
    PositionIs(items, items[0].key, 0);
  }

  lemma Retagged(items: seq<Item>, tag: Tag)
    requires items != [] && Ascending(items)
    ensures Ascending([items[0].(tag := tag)] + items[1..])
    ensures ([items[0].(tag := tag)] + items[1..])[1..] == items[1..]
  {
  }

  /** Taking out the first item, after its tag was changed. */
  lemma {:induction false} DeleteFirst(r: Tree, tag: Tag)
    requires r.Node? && Ascending(Items(r))
    ensures Items(Delete(WithMinTag(r, tag), Min(r).key)) == Items(r)[1..]
    decreases Height(r), 3
  {
    var r', key := WithMinTag(r, tag), Min(r).key;
    MinIsFirst(r, tag);
    Retagged(Items(r), tag);
    MinIsFirst(r', tag);
    DeleteItems(r', key);
    RemovedFirst(Items(r'), Items(Delete(r', key)));
  }

  lemma {:induction false} ShrinkLeft(l: Tree, l': Tree, x: Item, r: Tree)
    requires Balanced(Node(l, x, r)) && Balanced(l') && Height(l) - 1 <= Height(l') <= Height(l)
    ensures var t, t' := Node(l, x, r), Rebalance(Node(l', x, r));
            Balanced(t') && Height(t) - 1 <= Height(t') <= Height(t)
  {
    RebalanceBalances(Node(l', x, r));
  }

  lemma {:induction false} ShrinkRight(l: Tree, x: Item, r: Tree, r': Tree)
    requires Balanced(Node(l, x, r)) && Balanced(r') && Height(r) - 1 <= Height(r') <= Height(r)
    ensures var t, t' := Node(l, x, r), Rebalance(Node(l, x, r'));
            Balanced(t') && Height(t) - 1 <= Height(t') <= Height(t)
  {
    RebalanceBalances(Node(l, x, r'));
  }

  /** Removal keeps the tree balanced and makes it at most one lower. */
  lemma {:induction false} DeleteBalanced(t: Tree, key: Key)
    requires Balanced(t)
    ensures Balanced(Delete(t, key)) && Height(t) - 1 <= Height(Delete(t, key)) <= Height(t)
    decreases Height(t)
  {
    match t
    case Leaf =>
    case Node(l, x, r) =>
      if key < x.key {
        DeleteBalanced(l, key);
        ShrinkLeft(l, Delete(l, key), x, r);
      } else if x.key < key {
        DeleteBalanced(r, key);
        ShrinkRight(l, x, r, Delete(r, key));
      } else if l.Node? && r.Node? {
        DeleteBalanced(WithMinTag(r, x.tag), Min(r).key);
        ShrinkRight(l, Min(r).(slot := x.slot), r, Delete(WithMinTag(r, x.tag), Min(r).key));
      }
  }

  // ---------- Height ----------

  function Pow2(n: nat): nat {
    if n == 0 then 1 else 2 * Pow2(n - 1)
  }

  /** A balanced tree of height `h` has at least `2^(h/2) - 1` nodes. */
  lemma {:induction false} HeightIsLogarithmic(t: Tree)
    requires Balanced(t)
    ensures Pow2(Height(t) / 2) <= |Items(t)| + 1
    decreases Height(t)
  {
    if 2 <= Height(t) {
      HeightIsLogarithmic(t.left);
      HeightIsLogarithmic(t.right);
      Pow2Grows(Height(t) / 2 - 1, Height(t.left) / 2);
      Pow2Grows(Height(t) / 2 - 1, Height(t.right) / 2);
    }
  }

  lemma {:induction false} Pow2Grows(a: nat, b: nat)
    requires a <= b
    ensures Pow2(a) <= Pow2(b)
    decreases b
  {
    if a < b {
      Pow2Grows(a, b - 1);
    }
  }

  // ---------- What is stored ----------

  datatype Entry = Entry(val: Val, tag: Tag)

  /** The stored entries, by key. */
  function Contents(items: seq<Item>): map<Key, Entry> {
    if items == [] then map[] else Contents(items[1..])[items[0].key := Entry(items[0].val, items[0].tag)]
  }

  lemma {:induction false} ContentsHas(items: seq<Item>, key: Key)
    ensures key in Contents(items) <==> Position(items, key) < |items|
    ensures key in Contents(items) ==>
              var x := items[Position(items, key)];
              Contents(items)[key] == Entry(x.val, x.tag)
  {
    if items != [] {
      ContentsHas(items[1..], key);
    }
  }

  /** The first position whose key is not below `key`. */
  function LowerBound(items: seq<Item>, key: Key): (p: nat)
    ensures p <= |items|
    ensures forall i :: 0 <= i < p ==> items[i].key < key
    ensures p < |items| ==> key <= items[p].key
  {
    if items == [] || key <= items[0].key then 0 else 1 + LowerBound(items[1..], key)
  }

  /** Insertion changes one value or puts one item in its place. */
  lemma {:induction false} InsertItemIs(items: seq<Item>, x: Item)
    ensures var p := LowerBound(items, x.key);
            InsertItem(items, x) ==
            if p < |items| && items[p].key == x.key then items[p := items[p].(val := x.val)]
            else items[..p] + [x] + items[p..]
  {
    if items != [] && items[0].key < x.key {
      InsertItemIs(items[1..], x);
    }
  }

  lemma InsertedAscends(items: seq<Item>, x: Item)
    requires Ascending(items)
    ensures Ascending(InsertItem(items, x))
  {
    InsertItemIs(items, x);
  }

  lemma TailAbove(items: seq<Item>, key: Key)
    requires Ascending(items) && (items == [] || key < items[0].key)
    ensures key !in Contents(items)
  {
    ContentsHas(items, key);
  }

  lemma TailAscends(items: seq<Item>)
    requires items != [] && Ascending(items)
    ensures Ascending(items[1..]) && items[0].key !in Contents(items[1..])
  {
    TailAbove(items[1..], items[0].key);
  }

  /** Insertion sets the value of one key. A key that was there keeps its tag. */
  lemma {:induction false} InsertedContents(items: seq<Item>, x: Item)
    requires Ascending(items)
    ensures var m := Contents(items);
            Contents(InsertItem(items, x)) == m[x.key := Entry(x.val, if x.key in m then m[x.key].tag else x.tag)]
  {
    if items == [] || x.key < items[0].key {
      TailAbove(items, x.key);
      assert ([x] + items)[1..] == items;
    } else {
      TailAscends(items);
      var tail := items[1..];
      if x.key == items[0].key {
        assert InsertItem(items, x)[1..] == tail;
      } else {
        InsertedContents(tail, x);
        assert InsertItem(items, x)[1..] == InsertItem(tail, x);
      }
    }
  }

  lemma DropAtFront(items: seq<Item>, moves: bool)
    requires items != [] && (moves ==> 1 < |items|)
    ensures DropAt(items, 0, moves) ==
            if moves then [items[1].(slot := items[0].slot)] + items[2..] else items[1..]
  {
  }

  lemma DropAtBack(items: seq<Item>, p: nat, moves: bool)
    requires 0 < p < |items| && (moves ==> p + 1 < |items|)
    ensures DropAt(items, p, moves) == [items[0]] + DropAt(items[1..], p - 1, moves)
  {
    var tail := items[1..];
    assert items[..p] == [items[0]] + tail[..p - 1];
    if moves {
      assert items[p + 2..] == tail[p + 1..];
    } else {
      assert items[p + 1..] == tail[p..];
    }
  }

  lemma ContentsPrepend(x: Item, items: seq<Item>)
    ensures Contents([x] + items) == Contents(items)[x.key := Entry(x.val, x.tag)]
  {
    assert ([x] + items)[1..] == items;
  }

  lemma MinusSwaps(m: map<Key, Entry>, a: Key, e: Entry, b: Key)
    requires a != b
    ensures (m - {b})[a := e] == m[a := e] - {b}
  {
  }

  lemma {:induction false} DroppedContents(items: seq<Item>, p: nat, moves: bool)
    requires Ascending(items) && p < |items| && (moves ==> p + 1 < |items|)
    ensures Contents(DropAt(items, p, moves)) == Contents(items) - {items[p].key}
  {
    TailAscends(items);
    var x, tail := items[0], items[1..];
    if 0 < p {
      DropAtBack(items, p, moves);
      DroppedContents(tail, p - 1, moves);
      ContentsPrepend(x, DropAt(tail, p - 1, moves));
      MinusSwaps(Contents(tail), x.key, Entry(x.val, x.tag), items[p].key);
    } else {
      DropAtFront(items, moves);
      assert Contents(items) - {x.key} == Contents(tail);
      if moves {
        ContentsPrepend(items[1].(slot := x.slot), items[2..]);
        assert tail[1..] == items[2..];
      }
    }
  }

  lemma DroppedAscends(items: seq<Item>, p: nat, moves: bool)
    requires Ascending(items) && p < |items| && (moves ==> p + 1 < |items|)
    ensures Ascending(DropAt(items, p, moves)) && |DropAt(items, p, moves)| == |items| - 1
  {
  }

  /** Removal takes out one key, with its value and its tag. */
  lemma RemovedContents(items: seq<Item>, key: Key, moves: bool, rest: seq<Item>)
    requires Ascending(items) && Removed(items, key, moves, rest)
    ensures Ascending(rest) && Contents(rest) == Contents(items) - {key}
    ensures |rest| == |items| - if key in Contents(items) then 1 else 0
  {
    ContentsHas(items, key);
    var p := Position(items, key);
    if p < |items| {
      DroppedContents(items, p, moves);
      DroppedAscends(items, p, moves);
    }
  }

  // ---------- Where it is stored ----------

  function SlotSet(items: seq<Item>): set<nat> {
    set i | 0 <= i < |items| :: items[i].slot
  }

  /** No slot is used twice. */
  ghost predicate Apart(items: seq<Item>) {
    forall i, j :: 0 <= i < j < |items| ==> items[i].slot != items[j].slot
  }

  /** Insertion uses one more slot, for a new key. */
  lemma InsertedSlots(items: seq<Item>, x: Item)
    requires Ascending(items) && Apart(items) && (x.key in Contents(items) || x.slot !in SlotSet(items))
    ensures Apart(InsertItem(items, x))
    ensures SlotSet(InsertItem(items, x)) == SlotSet(items) + if x.key in Contents(items) then {} else {x.slot}
    ensures |InsertItem(items, x)| == |items| + if x.key in Contents(items) then 0 else 1
  {
    InsertItemIs(items, x);
    ContentsHas(items, x.key);
    var p, r := LowerBound(items, x.key), InsertItem(items, x);
    if p < |items| && items[p].key == x.key {
      assert forall i :: 0 <= i < |items| ==> r[i].slot == items[i].slot;
    } else {
      SplicedSlots(items, p, x);
    }
  }

  lemma SplicedSlots(items: seq<Item>, p: nat, x: Item)
    requires Apart(items) && p <= |items| && x.slot !in SlotSet(items)
    ensures var r := items[..p] + [x] + items[p..];
            Apart(r) && SlotSet(r) == SlotSet(items) + {x.slot}
  {
    var r := items[..p] + [x] + items[p..];
    forall s | s in SlotSet(items) || s == x.slot
      ensures s in SlotSet(r)
    {
      if s == x.slot {
        assert r[p].slot == s;
      } else {
        var i :| 0 <= i < |items| && items[i].slot == s;
        assert r[if i < p then i else i + 1].slot == s;
      }
    }
  }

  /** Which slot the items use after a removal: all but one, in the same order. */
  lemma DroppedSlotAt(items: seq<Item>, p: nat, moves: bool, i: nat)
    requires p < |items| && (moves ==> p + 1 < |items|) && i < |items| - 1
    ensures |DropAt(items, p, moves)| == |items| - 1
    ensures var q := if moves then p + 1 else p;
            DropAt(items, p, moves)[i].slot == items[if i < q then i else i + 1].slot
  {
  }

  /** Removal frees one slot: the removed item's, or the next one's if that item moves. */
  lemma DroppedSlots(items: seq<Item>, p: nat, moves: bool)
    requires Apart(items) && p < |items| && (moves ==> p + 1 < |items|)
    ensures var freed := items[if moves then p + 1 else p].slot;
            && Apart(DropAt(items, p, moves))
            && SlotSet(DropAt(items, p, moves)) == SlotSet(items) - {freed}
  {
    var q, rest := if moves then p + 1 else p, DropAt(items, p, moves);
    forall i | 0 <= i < |items| - 1
      ensures |rest| == |items| - 1 && rest[i].slot == items[if i < q then i else i + 1].slot
    {
      DroppedSlotAt(items, p, moves, i);
    }
    SlotsWithout(items, q, rest);
  }

  lemma SlotsWithout(items: seq<Item>, q: nat, rest: seq<Item>)
    requires Apart(items) && q < |items| == |rest| + 1
    requires forall i :: 0 <= i < |rest| ==> rest[i].slot == items[if i < q then i else i + 1].slot
    ensures Apart(rest) && SlotSet(rest) == SlotSet(items) - {items[q].slot}
  {
    forall s | s in SlotSet(items) && s != items[q].slot
      ensures s in SlotSet(rest)
    {
      var i :| 0 <= i < |items| && items[i].slot == s;
      assert rest[if i < q then i else i - 1].slot == s;
    }
  }

  /** A key below that of the root is in the left subtree if it is anywhere, one above in the right. */
  lemma ContentsInNode(l: seq<Item>, x: Item, r: seq<Item>, key: Key)
    requires Ascending(l + [x] + r)
    ensures key == x.key ==> key in Contents(l + [x] + r) && Contents(l + [x] + r)[key] == Entry(x.val, x.tag)
    ensures key < x.key ==> (key in Contents(l + [x] + r) <==> key in Contents(l))
    ensures key < x.key && key in Contents(l) ==> Contents(l + [x] + r)[key] == Contents(l)[key]
    ensures x.key < key ==> (key in Contents(l + [x] + r) <==> key in Contents(r))
    ensures x.key < key && key in Contents(r) ==> Contents(l + [x] + r)[key] == Contents(r)[key]
  {
    PositionInNode(l, x, r, key);
    ContentsHas(l + [x] + r, key);
    ContentsHas(l, key);
    ContentsHas(r, key);
  }

  lemma {:induction false} ContentsSize(items: seq<Item>)
    requires Ascending(items)
    ensures |Contents(items)| == |items|
  {
    if items != [] {
      TailAscends(items);
      ContentsSize(items[1..]);
    }
  }
}
