/** The VMA index of a process as its callers use it: the tree threaded by the list. */
module VmaSpace {
  import opened VmaTree
  import opened VmaBalance
  import opened VmaIndex
  import opened VmaErase
  import opened VmaView

  // ----- the list (include/kernel/list.h) -----

  /** The ring: position 0 and the position after the last area are the sentinel. */
  ghost function RingAt(head: VmArea, q: seq<VmArea>, i: int): VmArea {
    if 1 <= i <= |q| then q[i - 1] else head
  }

  ghost predicate Linked(head: VmArea, q: seq<VmArea>)
    reads head, q
  {
    && (forall i {:trigger RingAt(head, q, i).listNext} :: 0 <= i <= |q| ==>
          RingAt(head, q, i).listNext == RingAt(head, q, i + 1))
    && (forall i {:trigger RingAt(head, q, i).listPrev} :: 1 <= i <= |q| + 1 ==>
          RingAt(head, q, i).listPrev == RingAt(head, q, i - 1))
  }

  /** `__list_add` between the neighbours at positions `k` and `k + 1`. */
  method ListAdd(node: VmArea, prev: VmArea, next: VmArea, ghost head: VmArea, ghost q: seq<VmArea>, ghost k: nat)
    requires Linked(head, q) && NoDup(q) && head !in q && node !in q && node != head && k <= |q|
    requires prev == RingAt(head, q, k) && next == RingAt(head, q, k + 1)
    modifies next`listPrev, node`listNext, node`listPrev, prev`listNext
    ensures Linked(head, q[..k] + [node] + q[k..])
  {
    next.listPrev := node;
    node.listNext := next;
    node.listPrev := prev;
    prev.listNext := node;
    ghost var q' := q[..k] + [node] + q[k..];
    forall i | 0 <= i <= |q'| ensures RingAt(head, q', i).listNext == RingAt(head, q', i + 1) {
      assert RingAt(head, q', i) == if i == k + 1 then node else RingAt(head, q, if i <= k then i else i - 1);
    }
    forall i | 1 <= i <= |q'| + 1 ensures RingAt(head, q', i).listPrev == RingAt(head, q', i - 1) {
      assert RingAt(head, q', i) == if i == k + 1 then node else RingAt(head, q, if i <= k then i else i - 1);
    }
  }

  /** `list_del` of the area at index `k`. */
  method ListDel(node: VmArea, ghost head: VmArea, ghost q: seq<VmArea>, ghost k: nat)
    requires Linked(head, q) && NoDup(q) && head !in q && k < |q| && q[k] == node
    modifies head`listPrev, q`listPrev, head`listNext, q`listNext
    ensures Linked(head, q[..k] + q[k + 1..])
  {
    assert RingAt(head, q, k + 1) == node;
    assert node.listPrev == RingAt(head, q, k) && node.listNext == RingAt(head, q, k + 2);
    node.listNext.listPrev := node.listPrev;
    node.listPrev.listNext := node.listNext;
    node.listNext := null;
    node.listPrev := null;
    ghost var q' := q[..k] + q[k + 1..];
    forall i | 0 <= i <= |q'| ensures RingAt(head, q', i).listNext == RingAt(head, q', i + 1) {
      assert RingAt(head, q', i) == RingAt(head, q, if i <= k then i else i + 1);
    }
    forall i | 1 <= i <= |q'| + 1 ensures RingAt(head, q', i).listPrev == RingAt(head, q', i - 1) {
      assert RingAt(head, q', i) == RingAt(head, q, if i <= k then i else i + 1);
    }
  }

  // ----- the whole index -----

  ghost predicate Sorted(q: seq<VmArea>) {
    forall i, j :: 0 <= i < j < |q| ==> q[i].start <= q[j].start
  }

  /** Red-black tree, ordered by start address, threaded in order by the list. */
  ghost predicate Valid(idx: VmaIndex)
    reads idx, idx.head, idx.nodes, idx.areas
  {
    && idx.Rep(idx.tree, idx.nodes, idx.areas)
    && RedBlack(idx.tree)
    && Sorted(idx.areas)
    && idx.head !in idx.nodes
    && Linked(idx.head, idx.areas)
  }

  /** Members of the in-order sequence are nodes of the tree, and the other way round. */
  lemma {:induction false} AreasFacts(t: Tree, head: VmArea)
    requires Distinct(t)
    ensures NoDup(Inorder(t)) && (head !in Elems(t) ==> head !in Inorder(t))
    ensures forall i :: 0 <= i < |Inorder(t)| ==> Inorder(t)[i] in Elems(t)
  {
    InorderNoDup(t);
    InorderElems(t, head);
    forall i | 0 <= i < |Inorder(t)| ensures Inorder(t)[i] in Elems(t) { InorderElems(t, Inorder(t)[i]); }
  }

  /** Records the tree the pointers now spell out. */
  ghost method Publish(idx: VmaIndex, t: Tree, s: set<VmArea>, q: seq<VmArea>)
    requires idx.Rep(t, s, q) && RedBlack(t) && Sorted(q) && idx.head !in s && Linked(idx.head, q)
    modifies idx`tree, idx`nodes, idx`areas
    ensures Valid(idx) && idx.tree == t && idx.nodes == s && idx.areas == q
  {
    ghost var m := Snap(s);
    idx.tree, idx.nodes, idx.areas := t, s, q;
    assert Snap(s) == m;
  }

  // ----- vma_insert -----

  ghost predicate AllBelow(q: seq<VmArea>, start: nat) {
    forall i :: 0 <= i < |q| ==> q[i].start <= start
  }

  ghost predicate AllAbove(q: seq<VmArea>, start: nat) {
    forall i :: 0 <= i < |q| ==> start < q[i].start
  }

  /** The descent: `y` is the node below which the new area is linked. */
  method FindSlot(idx: VmaIndex, start: nat) returns (y: VmArea?, ghost c: Ctx)
    requires Valid(idx)
    ensures idx.tree == Plug(c, Leaf) && y == HoleParent(c)
    ensures AllBelow(Before(c), start) && AllAbove(After(c), start)
    ensures y != null ==> (start < y.start <==> c.InLeft?)
  {
    ghost var m := Snap(idx.nodes);
    y, c := null, Top;
    var x := idx.root;
    ghost var t := idx.tree;
    while x != null
      invariant idx.tree == Plug(c, t) && x == RootOf(t) && y == HoleParent(c)
      invariant AllBelow(Before(c), start) && AllAbove(After(c), start)
      invariant y != null ==> (start < y.start <==> c.InLeft?)
      decreases t
    {
      HoleFacts(c, t, m);
      y := x;
      SlotStep(c, t, start);
      if start < x.start {
        x, c, t := x.rbLeft, InLeft(t.area, t.color, t.right, c), t.left;
      } else {
        x, c, t := x.rbRight, InRight(t.left, t.area, t.color, c), t.right;
      }
    }
  }

  /** In a sorted tree, everything on the far side of the node is on the far side of the slot. */
  lemma {:induction false} SlotStep(c: Ctx, t: Tree, start: nat)
    requires t.Node? && Sorted(Inorder(Plug(c, t)))
    requires AllBelow(Before(c), start) && AllAbove(After(c), start)
    ensures start < t.area.start ==> AllAbove([t.area] + Inorder(t.right) + After(c), start)
    ensures t.area.start <= start ==> AllBelow(Before(c) + (Inorder(t.left) + [t.area]), start)
  {
    hide *;
    InorderPlug(c, t);
    InorderNode(t);
    var q, b, l, r := Inorder(Plug(c, t)), Before(c), Inorder(t.left), Inorder(t.right);
    SliceAt(q, b, l, t.area, r, After(c));
    SidesOf(q, |b| + |l|, start);
  }

  lemma InorderNode(t: Tree)
    requires t.Node?
    ensures Inorder(t) == Inorder(t.left) + [t.area] + Inorder(t.right)
  {
  }

  lemma SliceAt(q: seq<VmArea>, b: seq<VmArea>, l: seq<VmArea>, a: VmArea, r: seq<VmArea>, e: seq<VmArea>)
    requires q == b + (l + [a] + r) + e
    ensures var k := |b| + |l|; k < |q| && q[k] == a && q[k..] == [a] + r + e && q[..k + 1] == b + (l + [a])
  {
  }

  /** In a sorted sequence, all from position `k` on are above what is below the area there, and so on. */
  lemma SidesOf(q: seq<VmArea>, k: nat, start: nat)
    requires Sorted(q) && k < |q|
    ensures start < q[k].start ==> AllAbove(q[k..], start)
    ensures q[k].start <= start ==> AllBelow(q[..k + 1], start)
  {
  }

  /** The new leaf is linked below `y`, or becomes the root. */
  method LinkLeaf(idx: VmaIndex, vma: VmArea, y: VmArea?, ghost c: Ctx, ghost s: set<VmArea>, ghost q: seq<VmArea>)
    requires idx.Rep(Plug(c, Leaf), s, q) && vma !in s && y == HoleParent(c)
    requires y != null ==> (vma.start < y.start <==> c.InLeft?)
    modifies idx`root, s`rbLeft, s`rbRight, vma`rbLeft, vma`rbRight, vma`rbParent, vma`rbColor
    ensures idx.Rep(Plug(c, Node(Leaf, vma, Red, Leaf)), s + {vma}, Before(c) + [vma] + After(c))
  {
    ghost var m := Snap(s);
    ghost var t := Node(Leaf, vma, Red, Leaf);
    ShapePlug(c, Leaf, m);
    DistinctPlug(c, Leaf);
    ElemsPlug(c, Leaf);
    ElemsPlug(c, t);
    DistinctPlug(c, t);
    InorderPlug(c, t);
    if !c.Top? { RootPlug(c, Leaf, t); }
    vma.rbParent := y;
    vma.rbLeft := null;
    vma.rbRight := null;
    vma.rbColor := Red;
    if y == null {
      idx.root := vma;
    } else if vma.start < y.start {
      y.rbLeft := vma;
    } else {
      y.rbRight := vma;
    }
    ghost var m' := Snap(s + {vma});
    Rehole(c, null, vma, m, m');
    ShapePlug(c, t, m');
    assert Inorder(t) == [vma];
  }

  lemma {:induction false} LeafInv(c: Ctx, vma: VmArea)
    requires RedBlack(Plug(c, Leaf))
    ensures InsertInv(c, Node(Leaf, vma, Red, Leaf))
  {
    NoRedRedPlug(c, Leaf);
    BalancedPlug(c, Leaf);
    RootBlackPlug(c, Leaf);
  }

  /** The parent of the empty slot is its neighbour in the list. */
  lemma {:induction false} SlotNeighbour(c: Ctx)
    ensures c.Top? ==> Before(c) == [] && After(c) == []
    ensures c.InLeft? ==> After(c) != [] && After(c)[0] == c.area
    ensures c.InRight? ==> Before(c) != [] && Before(c)[|Before(c)| - 1] == c.area
  {
  }

  lemma InsertedSorted(q: seq<VmArea>, k: nat, vma: VmArea)
    requires Sorted(q) && k <= |q| && AllBelow(q[..k], vma.start) && AllAbove(q[k..], vma.start)
    ensures Sorted(q[..k] + [vma] + q[k..])
  {
    var q' := q[..k] + [vma] + q[k..];
    assert forall i :: 0 <= i < k ==> q'[i] == q[i] == q[..k][i];
    assert forall i :: k < i < |q'| ==> q'[i] == q[i - 1] == q[k..][i - 1 - k];
  }

  lemma {:induction false} SlotSequence(c: Ctx)
    ensures var q, k := Inorder(Plug(c, Leaf)), |Before(c)|;
            q == Before(c) + After(c) && q[..k] == Before(c) && q[k..] == After(c)
  {
    InorderPlug(c, Leaf);
    assert Before(c) + [] + After(c) == Before(c) + After(c);
  }

  /** The list side of `vma_insert`: next to the parent of the new leaf. */
  method ThreadLeaf(vma: VmArea, y: VmArea?, head: VmArea, ghost c: Ctx, ghost q: seq<VmArea>)
    requires q == Before(c) + After(c) && y == HoleParent(c) && (y != null ==> (vma.start < y.start <==> c.InLeft?))
    requires Linked(head, q) && NoDup(q) && head !in q && vma !in q && vma != head
    modifies head`listNext, head`listPrev, q`listNext, q`listPrev, vma`listNext, vma`listPrev
    ensures Linked(head, q[..|Before(c)|] + [vma] + q[|Before(c)|..])
  {
    SlotNeighbour(c);
    ghost var k := |Before(c)|;
    assert RingAt(head, q, k).listNext == RingAt(head, q, k + 1);
    assert RingAt(head, q, k + 1).listPrev == RingAt(head, q, k);
    if y == null {
      ListAdd(vma, head, head.listNext, head, q, k);
    } else if vma.start < y.start {
      assert RingAt(head, q, k + 1) == y;
      ListAdd(vma, y.listPrev, y, head, q, k);
    } else {
      assert RingAt(head, q, k) == y;
      ListAdd(vma, y, y.listNext, head, q, k);
    }
  }

  /** Tree links first, then the list, as in the code; neither disturbs the other. */
  method Attach(idx: VmaIndex, vma: VmArea, y: VmArea?, ghost c: Ctx, ghost s: set<VmArea>, ghost q: seq<VmArea>)
    requires idx.Rep(Plug(c, Leaf), s, q) && vma !in s && y == HoleParent(c)
    requires y != null ==> (vma.start < y.start <==> c.InLeft?)
    requires Linked(idx.head, q) && idx.head !in s && vma != idx.head && |Before(c)| <= |q|
    modifies idx`root, s`rbLeft, s`rbRight, vma`rbLeft, vma`rbRight, vma`rbParent, vma`rbColor
    modifies idx.head`listNext, idx.head`listPrev, q`listNext, q`listPrev, vma`listNext, vma`listPrev
    ensures idx.Rep(Plug(c, Node(Leaf, vma, Red, Leaf)), s + {vma}, q[..|Before(c)|] + [vma] + q[|Before(c)|..])
    ensures Linked(idx.head, q[..|Before(c)|] + [vma] + q[|Before(c)|..])
  {
    hide Inorder, Before, After, Elems, Shape, Distinct;
    SlotSequence(c);
    AreasFacts(Plug(c, Leaf), idx.head);
    InorderElems(Plug(c, Leaf), vma);
    LinkLeaf(idx, vma, y, c, s, q);
    ghost var m := Snap(s + {vma});
    assert Linked(idx.head, q);
    ThreadLeaf(vma, y, idx.head, c, q);
    assert Snap(s + {vma}) == m;
  }

  /** Rebalancing leaves the list alone. */
  method Rebalance(idx: VmaIndex, vma: VmArea, ghost c: Ctx, ghost t: Tree, ghost s: set<VmArea>, ghost q: seq<VmArea>)
    returns (ghost t': Tree)
    requires idx.Rep(Plug(c, t), s, q) && InsertInv(c, t) && t.area == vma && Linked(idx.head, q)
    modifies idx`root, s`rbLeft, s`rbRight, s`rbParent, s`rbColor
    ensures idx.Rep(t', s, q) && RedBlack(t') && Linked(idx.head, q)
  {
    t' := idx.InsertFixup(vma, c, t, s, q);
  }

  /** `vma_insert`: the area goes after every area that starts no later, in the tree and in the list. */
  method Insert(idx: VmaIndex, vma: VmArea) returns (ghost k: nat)
    requires Valid(idx) && vma !in idx.nodes && vma != idx.head
    modifies idx`root, idx`tree, idx`nodes, idx`areas, vma`rbLeft, vma`rbRight, vma`rbParent, vma`rbColor, vma`listNext, vma`listPrev
    modifies idx.nodes`rbLeft, idx.nodes`rbRight, idx.nodes`rbParent, idx.nodes`rbColor
    modifies idx.areas`listNext, idx.areas`listPrev, idx.head`listNext, idx.head`listPrev
    ensures Valid(idx) && idx.nodes == old(idx.nodes) + {vma}
    ensures k <= |old(idx.areas)| && idx.areas == old(idx.areas)[..k] + [vma] + old(idx.areas)[k..]
    ensures AllBelow(old(idx.areas)[..k], vma.start) && AllAbove(old(idx.areas)[k..], vma.start)
  {
    ghost var s, q := idx.nodes, idx.areas;
    var y;
    ghost var c;
    y, c := FindSlot(idx, vma.start);
    SlotSequence(c);
    LeafInv(c, vma);
    k := |Before(c)|;
    InsertedSorted(q, k, vma);
    Attach(idx, vma, y, c, s, q);
    ghost var q' := q[..k] + [vma] + q[k..];
    ghost var t' := Rebalance(idx, vma, c, Node(Leaf, vma, Red, Leaf), s + {vma}, q');
    Publish(idx, t', s + {vma}, q');
  }

  // ----- vma_erase -----

  /** Every node of a tree sits in the hole of some context. */
  lemma {:induction false} Locate(t: Tree, a: VmArea) returns (c: Ctx, u: Tree)
    requires a in Elems(t)
    ensures t == Plug(c, u) && u.Node? && u.area == a
  {
    if t.area == a {
      c, u := Top, t;
    } else if a in Elems(t.left) {
      c, u := Locate(t.left, a);
      PlugCompose(InLeft(t.area, t.color, t.right, Top), c, u);
      c := Compose(InLeft(t.area, t.color, t.right, Top), c);
    } else {
      c, u := Locate(t.right, a);
      PlugCompose(InRight(t.left, t.area, t.color, Top), c, u);
      c := Compose(InRight(t.left, t.area, t.color, Top), c);
    }
  }

  lemma ErasedSorted(q: seq<VmArea>, k: nat)
    requires Sorted(q) && k < |q|
    ensures Sorted(q[..k] + q[k + 1..])
  {
    var q' := q[..k] + q[k + 1..];
    assert forall i :: 0 <= i < |q'| ==> q'[i] == if i < k then q[i] else q[i + 1];
  }

  lemma Cut(b: seq<VmArea>, l: seq<VmArea>, x: VmArea, r: seq<VmArea>, f: seq<VmArea>)
    ensures var q, k := b + (l + [x] + r) + f, |b| + |l|;
            q[k] == x && b + (l + r) + f == q[..k] + q[k + 1..]
  {
    var q, k := b + (l + [x] + r) + f, |b| + |l|;
    assert q == b + l + [x] + (r + f);
    assert q[..k] == b + l && q[k + 1..] == r + f;
  }

  lemma {:induction false} EraseSequence(c: Ctx, u: Tree)
    requires u.Node?
    ensures var q, k := Inorder(Plug(c, u)), |Before(c)| + |Inorder(u.left)|;
            && k < |q| && q[k] == u.area
            && Before(c) + (Inorder(u.left) + Inorder(u.right)) + After(c) == q[..k] + q[k + 1..]
  {
    InorderPlug(c, u);
    Cut(Before(c), Inorder(u.left), u.area, Inorder(u.right), After(c));
  }

  /** Unlinking from the tree leaves the list alone. */
  method Unlink(idx: VmaIndex, vma: VmArea, ghost c: Ctx, ghost u: Tree, ghost s: set<VmArea>, ghost q: seq<VmArea>, ghost l: seq<VmArea>)
    returns (ghost t': Tree)
    requires idx.Rep(Plug(c, u), s, q) && RedBlack(Plug(c, u)) && u.Node? && u.area == vma && Linked(idx.head, l)
    modifies idx`root, s`rbLeft, s`rbRight, s`rbParent, s`rbColor
    ensures idx.Rep(t', s - {vma}, Before(c) + (Inorder(u.left) + Inorder(u.right)) + After(c)) && RedBlack(t')
    ensures Linked(idx.head, l)
  {
    t' := EraseNode(idx, vma, c, u, s, q);
  }

  /** The list first, then the tree, as in the code. */
  method Detach(idx: VmaIndex, vma: VmArea, ghost c: Ctx, ghost u: Tree, ghost s: set<VmArea>, ghost q: seq<VmArea>, ghost k: nat)
    returns (ghost t': Tree)
    requires idx.Rep(Plug(c, u), s, q) && RedBlack(Plug(c, u)) && u.Node? && u.area == vma
    requires Linked(idx.head, q) && NoDup(q) && idx.head !in q && k < |q| && q[k] == vma
    requires Before(c) + (Inorder(u.left) + Inorder(u.right)) + After(c) == q[..k] + q[k + 1..]
    modifies idx`root, s`rbLeft, s`rbRight, s`rbParent, s`rbColor
    modifies q`listNext, q`listPrev, idx.head`listNext, idx.head`listPrev
    ensures idx.Rep(t', s - {vma}, q[..k] + q[k + 1..]) && RedBlack(t') && Linked(idx.head, q[..k] + q[k + 1..])
  {
    ghost var m := Snap(s);
    ListDel(vma, idx.head, q, k);
    assert Snap(s) == m;
    t' := Unlink(idx, vma, c, u, s, q, q[..k] + q[k + 1..]);
  }

  /** `vma_erase`: the area leaves the tree and the list, and the others keep their order. */
  method Erase(idx: VmaIndex, vma: VmArea) returns (ghost k: nat)
    requires Valid(idx) && vma in idx.nodes
    modifies idx`root, idx`tree, idx`nodes, idx`areas
    modifies idx.nodes`rbLeft, idx.nodes`rbRight, idx.nodes`rbParent, idx.nodes`rbColor
    modifies idx.areas`listNext, idx.areas`listPrev, idx.head`listNext, idx.head`listPrev
    ensures Valid(idx) && idx.nodes == old(idx.nodes) - {vma}
    ensures k < |old(idx.areas)| && old(idx.areas)[k] == vma
    ensures idx.areas == old(idx.areas)[..k] + old(idx.areas)[k + 1..]
  {
    ghost var s, q := idx.nodes, idx.areas;
    AreasFacts(idx.tree, idx.head);
    ghost var c, u := Locate(idx.tree, vma);
    EraseSequence(c, u);
    k := |Before(c)| + |Inorder(u.left)|;
    ErasedSorted(q, k);
    ghost var t' := Detach(idx, vma, c, u, s, q, k);
    Publish(idx, t', s - {vma}, q[..k] + q[k + 1..]);
  }
}
