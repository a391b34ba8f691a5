/**
 The pointer heap of libuv (`src/heap-inl.h`): a binary min-heap linked through its elements, here
 with the order of `timer_less_than` (`src/timer.c`).
*/
module PointerHeap {

  datatype Key = Key(timeout: nat, startId: nat)

  /** `timer_less_than`. */
  predicate Less(a: Key, b: Key) {
    a.timeout < b.timeout || (a.timeout == b.timeout && a.startId < b.startId)
  }

  // ---------- heap order on key sequences ----------

  function ParentOf(i: int): int
    requires i > 0
  {
    (i - 1) / 2
  }

  /** Entry `j` is not less than its parent. */
  predicate InOrder(ks: seq<Key>, j: int)
    requires 0 < j < |ks|
  {
    !Less(ks[j], ks[ParentOf(j)])
  }

  ghost predicate HeapOrdered(ks: seq<Key>) {
    forall j | 0 < j < |ks| :: InOrder(ks, j)
  }

  /** The children of `i` are not less than the parent of `i`. */
  ghost predicate Spans(ks: seq<Key>, i: int)
    requires 0 <= i < |ks|
  {
    i > 0 ==> forall c | 0 < c < |ks| && ParentOf(c) == i :: !Less(ks[c], ks[ParentOf(i)])
  }

  /** In order except that `i` may be less than its parent. */
  ghost predicate MayRise(ks: seq<Key>, i: int)
    requires 0 <= i < |ks|
  {
    Spans(ks, i) && forall j | 0 < j < |ks| && j != i :: InOrder(ks, j)
  }

  /** In order except around `i`. */
  ghost predicate Loose(ks: seq<Key>, i: int)
    requires 0 <= i < |ks|
  {
    Spans(ks, i) && forall j | 0 < j < |ks| && j != i && ParentOf(j) != i :: InOrder(ks, j)
  }

  function Swapped<T>(s: seq<T>, i: int, j: int): seq<T>
    requires 0 <= i < |s| && 0 <= j < |s|
  {
    s[i := s[j]][j := s[i]]
  }

  lemma RiseStep(ks: seq<Key>, i: int)
    requires 0 < i < |ks| && MayRise(ks, i) && !InOrder(ks, i)
    ensures MayRise(Swapped(ks, ParentOf(i), i), ParentOf(i))
  {
    var p, ks' := ParentOf(i), Swapped(ks, ParentOf(i), i);
    forall j | 0 < j < |ks'| && j != p ensures InOrder(ks', j) {
      assert j != i ==> InOrder(ks, j);
    }
    if p > 0 {
      forall c | 0 < c < |ks'| && ParentOf(c) == p ensures !Less(ks'[c], ks'[ParentOf(p)]) {
        assert InOrder(ks, p) && (c != i ==> InOrder(ks, c));
      }
    }
  }

  lemma SinkStep(ks: seq<Key>, i: int, s: int)
    requires 0 <= i < |ks| && 0 < s < |ks| && ParentOf(s) == i && Loose(ks, i) && Less(ks[s], ks[i])
    requires forall c | 0 < c < |ks| && ParentOf(c) == i :: !Less(ks[c], ks[s])
    ensures Loose(Swapped(ks, i, s), s)
  {
    var ks' := Swapped(ks, i, s);
    forall j | 0 < j < |ks'| && j != s && ParentOf(j) != s ensures InOrder(ks', j) {
      assert j != i && ParentOf(j) != i ==> InOrder(ks, j);
    }
    forall c | 0 < c < |ks'| && ParentOf(c) == s ensures !Less(ks'[c], ks'[i]) {
      assert InOrder(ks, c);
    }
  }

  /** With nothing below `i` out of order, only the way up is left. */
  lemma SinkEnds(ks: seq<Key>, i: int)
    requires 0 <= i < |ks| && Loose(ks, i)
    requires forall c | 0 < c < |ks| && ParentOf(c) == i :: InOrder(ks, c)
    ensures MayRise(ks, i)
  {
  }

  lemma RiseEnds(ks: seq<Key>, i: int)
    requires 0 <= i < |ks| && MayRise(ks, i) && (i > 0 ==> InOrder(ks, i))
    ensures HeapOrdered(ks)
  {
  }

  /** The root of a heap is a least element. */
  lemma {:induction false} RootIsLeast(ks: seq<Key>, j: int)
    requires HeapOrdered(ks) && 0 <= j < |ks|
    ensures !Less(ks[j], ks[0])
    decreases j
  {
    if j > 0 {
      RootIsLeast(ks, ParentOf(j));
      assert InOrder(ks, j);
    }
  }

  /** Taking off the last entry keeps the order; putting it anywhere loosens it only there. */
  lemma ReplacedByLast(ks: seq<Key>, r: int)
    requires HeapOrdered(ks) && 0 <= r < |ks| - 1
    ensures Loose(ks[..|ks| - 1][r := ks[|ks| - 1]], r)
  {
    var ks' := ks[..|ks| - 1][r := ks[|ks| - 1]];
    forall j | 0 < j < |ks'| && j != r && ParentOf(j) != r ensures InOrder(ks', j) {
      assert InOrder(ks, j);
    }
    if r > 0 {
      forall c | 0 < c < |ks'| && ParentOf(c) == r ensures !Less(ks'[c], ks'[ParentOf(r)]) {
        assert InOrder(ks, c) && InOrder(ks, r);
      }
    }
  }

  // ---------- paths ----------

  /** Where following `k` path bits from node `i` (counted from 1) leads. */
  function Descend(i: nat, path: nat, k: nat): nat
    decreases k
  {
    if k == 0 then i else Descend(2 * i + path % 2, path / 2, k - 1)
  }

  lemma {:induction false} DescendGrows(i: nat, path: nat, k: nat)
    ensures Descend(i, path, k) >= i && (k > 0 ==> Descend(i, path, k) >= 2 * i)
    decreases k
  {
    if k > 0 {
      DescendGrows(2 * i + path % 2, path / 2, k - 1);
    }
  }

  /** The path from the root to the `size`-th position. */
  method PathTo(size: nat) returns (path: nat, k: nat)
    requires size > 0
    ensures Descend(1, path, k) == size
  {
    path, k := 0, 0;
    var n := size;
    while n >= 2
      invariant n >= 1 && Descend(n, path, k) == size
    {
      assert Descend(n / 2, 2 * path + n % 2, k + 1) == Descend(2 * (n / 2) + (2 * path + n % 2) % 2, path, k);
      path := 2 * path + n % 2;
      k := k + 1;
      n := n / 2;
    }
  }

  // ---------- the linked structure ----------

  /** A timer handle (`uv_timer_t`); its operations are in module Timers. */
  class Timer {
    var active: bool
    var closing: bool
    var hasCallback: bool
    var timeout: nat
    var repeat_: nat
    var startId: nat
    var node: Node?

    constructor ()
      ensures !active && !closing && !hasCallback && repeat_ == 0
    {
      active, closing, hasCallback, repeat_, node := false, false, false, 0, null;
    }
  }

  /** The heap node of a started timer, with the key it was started with. */
  class Node {
    const timer: Timer
    const key: Key
    var left: Node?
    var right: Node?
    var parent: Node?
    /** Position in the tree, level by level. */
    ghost var index: int

    constructor (timer: Timer, key: Key)
      ensures this.timer == timer && this.key == key
    {
      this.timer, this.key := timer, key;
    }
  }

  /** The other child of the same parent. */
  function SiblingOf(c: nat): nat
    requires c > 0
  {
    if c % 2 == 1 then c + 1 else c - 1
  }

  function NodeAt(ns: seq<Node>, i: int): Node? {
    if 0 <= i < |ns| then ns[i] else null
  }

  /** The links of the node at position `i` of a complete tree. */
  ghost predicate Linked(ns: seq<Node>, i: int)
    requires 0 <= i < |ns|
    reads ns[i]
  {
    && ns[i].index == i
    && ns[i].left == NodeAt(ns, 2 * i + 1)
    && ns[i].right == NodeAt(ns, 2 * i + 2)
    && ns[i].parent == if i == 0 then null else ns[ParentOf(i)]
  }

  function Keys(ns: seq<Node>): (ks: seq<Key>)
    ensures |ks| == |ns|
  {
    seq(|ns|, i requires 0 <= i < |ns| => ns[i].key)
  }

  class Heap {
    var min: Node?
    var nelts: nat
    /** The nodes by position. */
    ghost var nodes: seq<Node>

    /** A complete tree, linked both ways, of exactly these nodes. */
    ghost predicate Shape()
      reads this, nodes
    {
      nelts == |nodes| && min == NodeAt(nodes, 0) && forall i | 0 <= i < |nodes| :: Linked(nodes, i)
    }

    ghost predicate Valid()
      reads this, nodes
    {
      Shape() && HeapOrdered(Keys(nodes))
    }

    constructor ()
      ensures Valid() && nodes == []
    {
      min, nelts, nodes := null, 0, [];
    }

    /** `heap_node_swap`: the child takes the place of its parent. */
    method Swap(parent: Node, child: Node, ghost p: nat, ghost c: nat)
      requires Shape() && 0 < c < |nodes| && p == ParentOf(c) && parent == nodes[p] && child == nodes[c]
      modifies this`min, this`nodes, nodes
      ensures Shape() && nodes == Swapped(old(nodes), p, c)
    {
      ghost var ns := nodes;
      var sibling := Exchange(parent, child, p, c);
      forall j | 0 <= j < |nodes| && j != p && j != c ensures Linked(nodes, j) {
        assert old(Linked(ns, j) && Linked(ns, p) && Linked(ns, c));
      }
      ReattachSibling(child, sibling, p, c);
      ReattachBelow(parent, p, c);
      ReattachAbove(parent, child, p, c);
      forall i | 0 <= i < |ns| ensures Linked(Swapped(ns, p, c), i) {
        Relinked(ns, p, c, i);
      }
      nodes := Swapped(ns, p, c);
    }

    /** First part of `heap_node_swap`: the two nodes trade links and point at each other. */
    method Exchange(parent: Node, child: Node, ghost p: nat, ghost c: nat) returns (sibling: Node?)
      requires Shape() && 0 < c < |nodes| && p == ParentOf(c) && parent == nodes[p] && child == nodes[c]
      modifies parent, child
      ensures Traded(nodes, p, c) && sibling == NodeAt(nodes, SiblingOf(c))
    {
      ghost var s := SiblingOf(c);
      assert Linked(nodes, p) && Linked(nodes, c) && (s < |nodes| ==> Linked(nodes, s));
      parent.left, parent.right, parent.parent, child.left, child.right, child.parent :=
        child.left, child.right, child.parent, parent.left, parent.right, parent.parent;
      parent.index, child.index := c, p;
      parent.parent := child;
      if child.left == child {
        child.left := parent;
        sibling := child.right;
      } else {
        child.right := parent;
        sibling := child.left;
      }
    }

    method ReattachSibling(child: Node, sibling: Node?, ghost p: nat, ghost c: nat)
      requires 0 < c < |nodes| && p == ParentOf(c) && child == nodes[c] && sibling == NodeAt(nodes, SiblingOf(c))
      requires Traded(nodes, p, c) && forall j | 0 <= j < |nodes| && j != p && j != c :: Linked(nodes, j)
      modifies nodes
      ensures Exchanged(nodes, p, c)
    {
      ghost var s := SiblingOf(c);
      assert s < |nodes| ==> Linked(nodes, s);
      if sibling != null {
        sibling.parent := child;
      }
      forall j | 0 <= j < |nodes| && j != p && j != c ensures Beside(nodes, p, c, j) {
        assert old(Linked(nodes, j));
        assert nodes[j] == sibling <==> j == s;
        assert (j > 0 && ParentOf(j) == p) <==> j == s;
      }
    }

    /** Second part: the children of the node that moved down follow. */
    method ReattachBelow(parent: Node, ghost p: nat, ghost c: nat)
      requires 0 < c < |nodes| && p == ParentOf(c) && parent == nodes[p] && Exchanged(nodes, p, c)
      modifies nodes
      ensures Traded(nodes, p, c)
      ensures forall j | 0 <= j < |nodes| && j != p && j != c :: Above(nodes, -1, c, j) && Below(nodes, p, c, j)
    {
      ghost var l, r := 2 * c + 1, 2 * c + 2;
      assert l < |nodes| ==> Beside(nodes, p, c, l);
      assert r < |nodes| ==> Beside(nodes, p, c, r);
      if parent.left != null {
        parent.left.parent := parent;
      }
      if parent.right != null {
        parent.right.parent := parent;
      }
      forall j | 0 <= j < |nodes| && j != p && j != c ensures Above(nodes, -1, c, j) && Below(nodes, p, c, j) {
        assert old(Beside(nodes, p, c, j));
        assert (nodes[j] == NodeAt(nodes, l) <==> j == l) && (nodes[j] == NodeAt(nodes, r) <==> j == r);
      }
    }

    /** Last part: the place above gets the node that moved up. */
    method ReattachAbove(parent: Node, child: Node, ghost p: nat, ghost c: nat)
      requires 0 < c < |nodes| && p == ParentOf(c) && parent == nodes[p] && child == nodes[c] && min == nodes[0]
      requires Traded(nodes, p, c)
      requires forall j | 0 <= j < |nodes| && j != p && j != c :: Above(nodes, -1, c, j) && Below(nodes, p, c, j)
      modifies this`min, nodes
      ensures Traded(nodes, p, c) && min == if p == 0 then child else nodes[0]
      ensures forall j | 0 <= j < |nodes| && j != p && j != c :: Above(nodes, p, c, j) && Below(nodes, p, c, j)
    {
      ghost var u := if p == 0 then -1 else ParentOf(p);
      assert p > 0 ==> Above(nodes, -1, c, u) && Below(nodes, p, c, u);
      assert p > 0 && p != 2 * u + 1 ==> Above(nodes, -1, c, 2 * u + 1);
      if child.parent == null {
        min := child;
      } else if child.parent.left == parent {
        child.parent.left := child;
      } else {
        child.parent.right := child;
      }
      forall j | 0 <= j < |nodes| && j != p && j != c ensures Above(nodes, p, c, j) && Below(nodes, p, c, j) {
        assert old(Above(nodes, -1, c, j) && Below(nodes, p, c, j));
        assert nodes[j] == NodeAt(nodes, u) <==> j == u;
      }
    }

    /** Walks `node` up while it is less than its parent. */
    method SiftUp(node: Node, ghost i0: nat)
      requires Shape() && i0 < |nodes| && nodes[i0] == node && MayRise(Keys(nodes), i0)
      modifies this`min, this`nodes, nodes
      ensures Valid() && Elements(nodes) == old(Elements(nodes)) && nelts == old(nelts)
    {
      ghost var i: nat := i0;
      while node.parent != null && Less(node.key, node.parent.key)
        invariant Shape() && i < |nodes| && nodes[i] == node && MayRise(Keys(nodes), i)
        invariant Elements(nodes) == old(Elements(nodes)) && nelts == old(nelts)
        invariant forall j | 0 <= j < |nodes| :: nodes[j] in old(nodes)
        decreases i
      {
        assert Linked(nodes, i);
        RiseStep(Keys(nodes), i);
        SwappedElements(nodes, ParentOf(i), i);
        SwappedKeys(nodes, ParentOf(i), i);
        Swap(node.parent, node, ParentOf(i), i);
        i := ParentOf(i);
      }
      assert Linked(nodes, i);
      RiseEnds(Keys(nodes), i);
    }

    /** What a pointer to a link holds. */
    function Deref(slot: Slot): Node?
      reads this, if slot.MinSlot? then {} else {slot.node}
    {
      match slot
      case MinSlot => min
      case LeftSlot(n) => n.left
      case RightSlot(n) => n.right
    }

    method Store(slot: Slot, node: Node?)
      modifies if slot.MinSlot? then {this} else {slot.node as object}
      ensures slot.MinSlot? ==> min == node && nelts == old(nelts) && nodes == old(nodes)
      ensures slot.LeftSlot? ==> slot.node.left == node && slot.node.right == old(slot.node.right)
      ensures slot.RightSlot? ==> slot.node.right == node && slot.node.left == old(slot.node.left)
      ensures !slot.MinSlot? ==> slot.node.parent == old(slot.node.parent) && slot.node.index == old(slot.node.index)
    {
      match slot
      case MinSlot => min := node;
      case LeftSlot(n) => n.left := node;
      case RightSlot(n) => n.right := node;
    }

    lemma SlotHolds(i: nat)
      requires Shape() && 1 <= i <= |nodes|
      ensures Deref(SlotAt(nodes, i)) == nodes[i - 1]
    {
      assert Linked(nodes, i - 1) && (i > 1 ==> Linked(nodes, i / 2 - 1));
    }

    /** The slots of the children of position `i`. */
    lemma ChildSlot(i: nat, bit: nat, size: nat) returns (next: nat)
      requires 1 <= i && 2 * i <= size <= |nodes| + 1 && bit < 2
      ensures next == 2 * i + bit && next / 2 == i
      ensures next <= |nodes| + 1 ==>
        SlotAt(nodes, next) == if bit == 1 then RightSlot(nodes[i - 1]) else LeftSlot(nodes[i - 1])
    {
      next := 2 * i + bit;
    }

    /** Follows the path to position `size`, keeping the last two links passed. */
    method FindSlot(size: nat) returns (up: Slot, slot: Slot)
      requires Shape() && 0 < size <= |nodes| + 1
      ensures slot == SlotAt(nodes, size)
      ensures Deref(up) == if size == 1 then min else nodes[size / 2 - 1]
    {
      var path, k := PathTo(size);
      up, slot := MinSlot, MinSlot;
      ghost var i: nat := 1;
      while k > 0
        invariant 1 <= i <= size && Descend(i, path, k) == size
        invariant slot == SlotAt(nodes, i)
        invariant Deref(up) == if i == 1 then min else nodes[i / 2 - 1]
        decreases k
      {
        DescendGrows(i, path, k);
        up := slot;
        SlotHolds(i);
        ghost var next := ChildSlot(i, path % 2, size);
        if path % 2 == 1 {
          slot := RightSlot(Deref(slot));
        } else {
          slot := LeftSlot(Deref(slot));
        }
        i := next;
        path := path / 2;
        k := k - 1;
        DescendGrows(i, path, k);
      }
    }

    /** `heap_insert`. */
    method Insert(newnode: Node)
      requires Valid() && newnode !in nodes
      modifies this, nodes, newnode
      ensures Valid() && Elements(nodes) == old(Elements(nodes)) + {newnode} && nelts == old(nelts) + 1
    {
      newnode.left, newnode.right, newnode.parent := null, null, null;
      ghost var n := |nodes|;
      forall i | 0 <= i < n ensures Linked(nodes, i) {
        assert old(Linked(nodes, i)) && nodes[i] != newnode;
      }
      var up, slot := FindSlot(1 + nelts);
      Append(newnode, up, slot);
      SiftUp(newnode, n);
    }

    /** The part of `heap_insert` that links the new node in. */
    method Append(newnode: Node, up: Slot, slot: Slot)
      requires Shape() && newnode !in nodes && HeapOrdered(Keys(nodes))
      requires newnode.left == null && newnode.right == null
      requires slot == SlotAt(nodes, |nodes| + 1)
      requires Deref(up) == if nodes == [] then min else nodes[(|nodes| + 1) / 2 - 1]
      modifies this, nodes, newnode
      ensures Shape() && nodes == old(nodes) + [newnode] && MayRise(Keys(nodes), |nodes| - 1)
      ensures Elements(nodes) == old(Elements(nodes)) + {newnode}
    {
      ghost var before := Keys(nodes);
      Attach(newnode, up, slot);
      SameOrder(before, Keys(nodes));
    }

    lemma SameOrder(ks: seq<Key>, ks': seq<Key>)
      requires |ks'| == |ks| + 1 && ks == ks'[..|ks|] && HeapOrdered(ks)
      ensures MayRise(ks', |ks|)
    {
      forall j | 0 < j < |ks| ensures InOrder(ks', j) {
        assert InOrder(ks, j) && ks[j] == ks'[j] && ks[ParentOf(j)] == ks'[ParentOf(j)];
      }
    }

    /** Links the node in, and counts it. */
    method Attach(newnode: Node, up: Slot, slot: Slot)
      requires Shape() && newnode !in nodes && newnode.left == null && newnode.right == null
      requires slot == SlotAt(nodes, |nodes| + 1)
      requires Deref(up) == if nodes == [] then min else nodes[(|nodes| + 1) / 2 - 1]
      modifies this, nodes, newnode
      ensures Shape() && nodes == old(nodes) + [newnode]
    {
      ghost var ns, n := nodes, |nodes|;
      newnode.parent := Deref(up);
      assert n > 0 ==> Linked(ns, ParentOf(n));
      Store(slot, newnode);
      newnode.index := n;
      nelts := nelts + 1;
      nodes := nodes + [newnode];
      forall i | 0 <= i < |nodes| ensures Linked(nodes, i) {
        assert i < n ==> old(Linked(ns, i)) && (nodes[i] == nodes[ParentOf(n)] <==> i == ParentOf(n));
        assert NodeAt(nodes, 2 * i + 1) == if 2 * i + 1 == n then newnode else NodeAt(ns, 2 * i + 1);
        assert NodeAt(nodes, 2 * i + 2) == if 2 * i + 2 == n then newnode else NodeAt(ns, 2 * i + 2);
      }
    }

    /** Takes the last node off the tree. */
    method Unlink() returns (child: Node)
      requires Valid() && nodes != []
      modifies this, nodes
      ensures Shape() && nodes == old(nodes)[..|old(nodes)| - 1] && child == old(nodes)[|old(nodes)| - 1]
      ensures nelts == old(nelts) - 1
    {
      ghost var ns, n := nodes, |nodes| - 1;
      var up, max := FindSlot(nelts);
      nelts := nelts - 1;
      assert Linked(ns, n) && (n > 0 ==> Linked(ns, ParentOf(n)));
      child := Deref(max);
      Store(max, null);
      nodes := nodes[..n];
      forall i | 0 <= i < n ensures Linked(nodes, i) {
        assert old(Linked(ns, i)) && (ns[i] == ns[ParentOf(n)] <==> i == ParentOf(n));
      }
    }

    /** Puts `child` in the place of `node`. */
    method Replace(node: Node, child: Node, ghost r: nat)
      requires Shape() && r < |nodes| && node == nodes[r] && child !in nodes
      modifies this, nodes, child
      ensures Shape() && nodes == old(nodes)[r := child] && nelts == old(nelts)
    {
      assert Linked(nodes, r);
      child.left := node.left;
      child.right := node.right;
      child.parent := node.parent;
      child.index := r;
      forall j | 0 <= j < |nodes| ensures Linked(nodes, j) {
        assert old(Linked(nodes, j)) && nodes[j] != child;
      }
      ReplaceBelow(child, r);
      ReplaceAbove(node, child, r);
      ghost var ns := nodes;
      nodes := nodes[r := child];
      forall i | 0 <= i < |nodes| ensures Linked(nodes, i) {
        assert Adopted(ns, r, child, i, true);
      }
    }

    /** The children of the replaced node get a new parent. */
    method ReplaceBelow(child: Node, ghost r: nat)
      requires r < |nodes| && child !in nodes && forall j | 0 <= j < |nodes| :: Linked(nodes, j)
      requires child.left == NodeAt(nodes, 2 * r + 1) && child.right == NodeAt(nodes, 2 * r + 2)
      modifies nodes
      ensures forall j | 0 <= j < |nodes| :: Adopted(nodes, r, child, j, false)
    {
      ghost var l, t := 2 * r + 1, 2 * r + 2;
      assert (l < |nodes| ==> Linked(nodes, l)) && (t < |nodes| ==> Linked(nodes, t));
      if child.left != null {
        child.left.parent := child;
      }
      if child.right != null {
        child.right.parent := child;
      }
      forall j | 0 <= j < |nodes| ensures Adopted(nodes, r, child, j, false) {
        assert old(Linked(nodes, j));
        assert (nodes[j] == NodeAt(nodes, l) <==> j == l) && (nodes[j] == NodeAt(nodes, t) <==> j == t);
      }
    }

    /** The parent of the replaced node gets a new child. */
    method ReplaceAbove(node: Node, child: Node, ghost r: nat)
      requires r < |nodes| && node == nodes[r] && child !in nodes && min == nodes[0]
      requires forall j | 0 <= j < |nodes| :: Adopted(nodes, r, child, j, false)
      modifies this`min, nodes
      ensures forall j | 0 <= j < |nodes| :: Adopted(nodes, r, child, j, true)
      ensures min == nodes[r := child][0]
    {
      ghost var u := if r == 0 then 0 else ParentOf(r);
      assert Adopted(nodes, r, child, r, false) && Adopted(nodes, r, child, u, false);
      assert r > 0 && r != 2 * u + 1 ==> Adopted(nodes, r, child, 2 * u + 1, false);
      if node.parent == null {
        min := child;
      } else if node.parent.left == node {
        node.parent.left := child;
      } else {
        node.parent.right := child;
      }
      forall j | 0 <= j < |nodes| ensures Adopted(nodes, r, child, j, true) {
        assert old(Adopted(nodes, r, child, j, false));
        assert nodes[j] == nodes[u] <==> j == u;
      }
    }

    /** Walks `child` down while a child of it is less. */
    method SiftDown(child: Node, ghost i0: nat) returns (ghost i: nat)
      requires Shape() && i0 < |nodes| && nodes[i0] == child && Loose(Keys(nodes), i0)
      modifies this`min, this`nodes, nodes
      ensures Shape() && i < |nodes| && nodes[i] == child && MayRise(Keys(nodes), i)
      ensures Elements(nodes) == old(Elements(nodes)) && nelts == old(nelts)
      ensures forall j | 0 <= j < |nodes| :: nodes[j] in old(nodes)
    {
      i := i0;
      while true
        invariant Shape() && i < |nodes| && nodes[i] == child && Loose(Keys(nodes), i)
        invariant Elements(nodes) == old(Elements(nodes)) && nelts == old(nelts)
        invariant forall j | 0 <= j < |nodes| :: nodes[j] in old(nodes)
        decreases |nodes| - i
      {
        var smallest, s := Smallest(child, i);
        if smallest == child {
          SinkEnds(Keys(nodes), i);
          break;
        }
        SinkStep(Keys(nodes), i, s);
        SwappedElements(nodes, i, s);
        SwappedKeys(nodes, i, s);
        Swap(child, smallest, i, s);
        i := s;
      }
    }

    /** The smallest of a node and its children, the node itself if neither is less. */
    method Smallest(child: Node, ghost i: nat) returns (smallest: Node, ghost s: nat)
      requires Shape() && i < |nodes| && nodes[i] == child
      ensures s < |nodes| && smallest == nodes[s] && (smallest == child <==> s == i)
      ensures s != i ==> s > 0 && ParentOf(s) == i && Less(Keys(nodes)[s], Keys(nodes)[i])
      ensures forall c | 0 < c < |nodes| && ParentOf(c) == i :: !Less(Keys(nodes)[c], Keys(nodes)[s])
    {
      ghost var l, r := 2 * i + 1, 2 * i + 2;
      assert Linked(nodes, i) && (l < |nodes| ==> Linked(nodes, l)) && (r < |nodes| ==> Linked(nodes, r));
      smallest, s := child, i;
      if child.left != null && Less(child.left.key, smallest.key) {
        smallest, s := child.left, l;
      }
      if child.right != null && Less(child.right.key, smallest.key) {
        smallest, s := child.right, r;
      }
      assert forall c: int | 0 < c && ParentOf(c) == i :: c == l || c == r;
    }

    /** `heap_remove`. */
    method Remove(node: Node)
      requires Valid() && (nelts == 0 || node in nodes)
      modifies this, nodes
      ensures Valid() && Elements(nodes) == old(Elements(nodes)) - {node}
      ensures nelts == if old(nelts) == 0 then 0 else old(nelts) - 1
    {
      if nelts == 0 {
        return;
      }
      ghost var ns, n := nodes, |nodes| - 1;
      ghost var r := PositionOf(node);
      AllDistinct();
      RemovedElements(ns, r);
      var child := Unlink();
      assert Keys(nodes) == Keys(ns)[..n];
      if child == node {
        // When it was the only node, unlinking it has already cleared the root.
        PrefixOrdered(Keys(ns), n);
        return;
      }
      ReplacedByLast(Keys(ns), r);
      PutInPlace(node, child, r);
    }

    /** The last node, unlinked, goes to the place of the removed one, then down or up. */
    method PutInPlace(node: Node, child: Node, ghost r: nat)
      requires Shape() && r < |nodes| && node == nodes[r] && child !in nodes
      requires Loose(Keys(nodes)[r := child.key], r)
      modifies this, nodes, child
      ensures Valid() && Elements(nodes) == Elements(old(nodes)[r := child]) && nelts == old(nelts)
    {
      assert Keys(nodes[r := child]) == Keys(nodes)[r := child.key];
      Replace(node, child, r);
      ghost var i := SiftDown(child, r);
      SiftUp(child, i);
    }

    lemma AllDistinct()
      requires Shape()
      ensures forall i, j | 0 <= i < j < |nodes| :: nodes[i] != nodes[j]
    {
      forall i, j | 0 <= i < j < |nodes| ensures nodes[i] != nodes[j] {
        assert Linked(nodes, i) && Linked(nodes, j);
      }
    }

    /** Where a node of the heap stands. */
    lemma PositionOf(node: Node) returns (r: nat)
      requires Shape() && node in nodes
      ensures r < |nodes| && nodes[r] == node
    {
      r :| r < |nodes| && nodes[r] == node;
    }

    /** `heap_min`: a least node, if there is one. */
    method Min() returns (node: Node?)
      requires Valid()
      ensures node == null <==> nodes == []
      ensures node != null ==> node in nodes && forall n | n in nodes :: !Less(n.key, node.key)
    {
      node := min;
      forall n | n in nodes ensures !Less(n.key, nodes[0].key) {
        var r := PositionOf(n);
        RootIsLeast(Keys(nodes), r);
      }
    }
  }

  /** The links of the tree while `child` takes position `r`: those upwards, and downwards too if `above`. */
  ghost predicate Adopted(ns: seq<Node>, r: nat, child: Node, j: nat, above: bool)
    requires r < |ns| && j < |ns|
    reads ns[j]
  {
    && ns[j].index == j
    && ns[j].left == (if above && 2 * j + 1 == r then child else NodeAt(ns, 2 * j + 1))
    && ns[j].right == (if above && 2 * j + 2 == r then child else NodeAt(ns, 2 * j + 2))
    && ns[j].parent == if j == 0 then null else if ParentOf(j) == r then child else ns[ParentOf(j)]
  }

  /** A pointer to a link: to the root of the heap or to a child of a node. */
  datatype Slot = MinSlot | LeftSlot(node: Node) | RightSlot(node: Node)

  /** The link to the `size`-th node, counted from 1. */
  function SlotAt(ns: seq<Node>, size: nat): Slot
    requires 0 < size <= |ns| + 1
  {
    if size == 1 then MinSlot
    else if size % 2 == 1 then RightSlot(ns[size / 2 - 1])
    else LeftSlot(ns[size / 2 - 1])
  }

  ghost function Elements(ns: seq<Node>): set<Node> {
    set n | n in ns
  }

  lemma SwappedElements(ns: seq<Node>, i: nat, j: nat)
    requires i < |ns| && j < |ns|
    ensures Elements(Swapped(ns, i, j)) == Elements(ns)
  {
    var t := Swapped(ns, i, j);
    forall n | n in ns ensures n in t {
      var k :| 0 <= k < |ns| && ns[k] == n;
      assert n == t[if k == i then j else if k == j then i else k];
    }
  }

  /** Without the last node, with it in the place of node `r` unless that is the last one itself. */
  lemma RemovedElements(ns: seq<Node>, r: nat)
    requires r < |ns| && forall i, j | 0 <= i < j < |ns| :: ns[i] != ns[j]
    ensures r == |ns| - 1 ==> Elements(ns[..|ns| - 1]) == Elements(ns) - {ns[r]}
    ensures r < |ns| - 1 ==> Elements(ns[..|ns| - 1][r := ns[|ns| - 1]]) == Elements(ns) - {ns[r]}
  {
    var n := |ns| - 1;
    var t := if r == n then ns[..n] else ns[..n][r := ns[n]];
    forall x | x in ns && x != ns[r] ensures x in t {
      var k :| 0 <= k < |ns| && ns[k] == x;
      assert x == t[if k == n then r else k];
    }
    forall x | x in t ensures x in ns && x != ns[r] {
      var k :| 0 <= k < |t| && t[k] == x;
      assert x == ns[if k == r then n else k];
    }
  }

  lemma PrefixOrdered(ks: seq<Key>, n: nat)
    requires HeapOrdered(ks) && n <= |ks|
    ensures HeapOrdered(ks[..n])
  {
    assert forall j | 0 < j < n :: InOrder(ks, j) ==> InOrder(ks[..n], j);
  }

  lemma SwappedKeys(ns: seq<Node>, i: nat, j: nat)
    requires i < |ns| && j < |ns|
    ensures Keys(Swapped(ns, i, j)) == Swapped(Keys(ns), i, j)
  {
  }

  // ---------- what a swap changes ----------

  /** The links of the two nodes after they traded places. */
  ghost predicate Traded(ns: seq<Node>, p: nat, c: nat)
    requires 0 < c < |ns| && p == ParentOf(c)
    reads ns[p], ns[c]
  {
    && ns[p].index == c && ns[c].index == p
    && ns[p].left == NodeAt(ns, 2 * c + 1) && ns[p].right == NodeAt(ns, 2 * c + 2)
    && ns[p].parent == ns[c] && ns[c].parent == (if p == 0 then null else ns[ParentOf(p)])
    && ns[c].left == (if c == 2 * p + 1 then ns[p] else NodeAt(ns, 2 * p + 1))
    && ns[c].right == (if c == 2 * p + 2 then ns[p] else NodeAt(ns, 2 * p + 2))
  }

  /** The links after the first part of a swap of `p` and its child `c`. */
  ghost predicate Exchanged(ns: seq<Node>, p: nat, c: nat)
    requires 0 < c < |ns| && p == ParentOf(c)
    reads ns
  {
    Traded(ns, p, c) && forall j | 0 <= j < |ns| && j != p && j != c :: Beside(ns, p, c, j)
  }

  /** A node that is not part of the swap; only the sibling has a new parent so far. */
  ghost predicate Beside(ns: seq<Node>, p: nat, c: nat, j: nat)
    requires 0 < c < |ns| && j < |ns|
    reads ns[j]
  {
    && ns[j].index == j
    && ns[j].left == NodeAt(ns, 2 * j + 1) && ns[j].right == NodeAt(ns, 2 * j + 2)
    && ns[j].parent == if j == 0 then null else if ParentOf(j) == p then ns[c] else ns[ParentOf(j)]
  }

  /** Its links downwards, with the node at `c` in place `p`. */
  ghost predicate Above(ns: seq<Node>, p: int, c: nat, j: nat)
    requires 0 < c < |ns| && j < |ns|
    reads ns[j]
  {
    && ns[j].index == j
    && ns[j].left == (if 2 * j + 1 == p then ns[c] else NodeAt(ns, 2 * j + 1))
    && ns[j].right == (if 2 * j + 2 == p then ns[c] else NodeAt(ns, 2 * j + 2))
  }

  /** Its link upwards, with both nodes in their new places. */
  ghost predicate Below(ns: seq<Node>, p: nat, c: nat, j: nat)
    requires 0 < c < |ns| && j < |ns| && p < |ns|
    reads ns[j]
  {
    ns[j].parent ==
      if j == 0 then null else if ParentOf(j) == p then ns[c] else if ParentOf(j) == c then ns[p] else ns[ParentOf(j)]
  }

  /** Put together, these are the links of the tree with the two nodes swapped. */
  lemma Relinked(ns: seq<Node>, p: nat, c: nat, i: nat)
    requires 0 < c < |ns| && p == ParentOf(c) && i < |ns| && Traded(ns, p, c)
    requires i != p && i != c ==> Above(ns, p, c, i) && Below(ns, p, c, i)
    ensures Linked(Swapped(ns, p, c), i)
  {
  }
}
