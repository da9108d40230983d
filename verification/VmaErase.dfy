/** `rb_erase_node` of kernel/mm/vma.c: unlinking a node, and with it the choice of `x`, `xp` and
    `x_is_left` that the fixup relies on. */
module VmaErase {
  import opened VmaTree
  import opened VmaBalance
  import opened VmaIndex

  // ----- unlinking on snapshots -----

  /** `u`, whose parent is `p` and whose only child is `v`, is bypassed. */
  ghost predicate Bypasses(m: Memory, m': Memory, u: VmArea, v: VmArea?, p: VmArea?)
    requires u in m && (v == null || v in m) && (p == null || p in m)
  {
    && m'.Keys == m.Keys - {u}
    && (p != null ==> p in m' && m'[p] == if m[p].left == u then m[p].(left := v) else m[p].(right := v))
    && (v != null ==> v in m' && m'[v] == m[v].(parent := p))
    && forall a :: a in m' && a != p && a != v ==> m'[a] == m[a]
  }

  lemma {:induction false} BypassShape(c: Ctx, t: Tree, v: Tree, m: Memory, m': Memory)
    requires t.Node? && Distinct(Plug(c, t)) && Shape(Plug(c, t), null, m)
    requires (t.left.Leaf? && v == t.right) || (t.right.Leaf? && v == t.left)
    requires t.area in m && (v.Node? ==> v.area in m) && (!c.Top? ==> c.area in m)
    requires Bypasses(m, m', t.area, RootOf(v), HoleParent(c))
    ensures Shape(Plug(c, v), null, m')
  {
    ShapePlug(c, t, m);
    DistinctPlug(c, t);
    Rehole(c, t.area, RootOf(v), m, m');
    Reparent(v, t.area, HoleParent(c), m, m');
    ShapePlug(c, v, m');
  }

  lemma {:induction false} BypassKeeps(c: Ctx, t: Tree, v: Tree)
    requires t.Node? && Distinct(Plug(c, t))
    requires (t.left.Leaf? && v == t.right) || (t.right.Leaf? && v == t.left)
    ensures Distinct(Plug(c, v)) && Elems(Plug(c, v)) == Elems(Plug(c, t)) - {t.area}
    ensures Inorder(Plug(c, v)) == Before(c) + Inorder(v) + After(c)
    ensures RootOf(Plug(c, v)) == if c.Top? then RootOf(v) else RootOf(Plug(c, t))
  {
    DistinctPlug(c, t);
    DistinctPlug(c, v);
    ElemsPlug(c, t);
    ElemsPlug(c, v);
    InorderPlug(c, v);
    if !c.Top? { RootPlug(c, t, v); }
  }

  /** `y`, outside the tree, takes the place of `z`. */
  ghost predicate Supplants(m: Memory, m': Memory, z: VmArea, y: VmArea, p: VmArea?)
    requires z in m && (p == null || p in m)
  {
    && m'.Keys == m.Keys - {z} + {y}
    && y in m' && m'[y] == m[z]
    && (p != null ==> p in m' && m'[p] == if m[p].left == z then m[p].(left := y) else m[p].(right := y))
    && (forall a :: a in m' && a in m && (a == m[z].left || a == m[z].right) ==> m'[a] == m[a].(parent := y))
    && forall a :: a in m' && a in m && a != y && a != p && a != m[z].left && a != m[z].right ==> m'[a] == m[a]
  }

  lemma {:induction false} SupplantShape(c: Ctx, t: Tree, y: VmArea, m: Memory, m': Memory)
    requires t.Node? && Distinct(Plug(c, t)) && Shape(Plug(c, t), null, m)
    requires t.area in m && (!c.Top? ==> c.area in m) && y !in Elems(Plug(c, t)) && y !in m
    requires Supplants(m, m', t.area, y, HoleParent(c))
    ensures Shape(Plug(c, t.(area := y)), null, m')
  {
    ShapePlug(c, t, m);
    DistinctPlug(c, t);
    ElemsPlug(c, t);
    Rehole(c, t.area, y, m, m');
    Reparent(t.left, t.area, y, m, m');
    Reparent(t.right, t.area, y, m, m');
    ShapePlug(c, t.(area := y), m');
  }

  lemma {:induction false} SupplantKeeps(c: Ctx, t: Tree, y: VmArea)
    requires t.Node? && Distinct(Plug(c, t)) && y !in Elems(Plug(c, t))
    ensures var t' := t.(area := y);
            && Distinct(Plug(c, t')) && Elems(Plug(c, t')) == Elems(Plug(c, t)) - {t.area} + {y}
            && Inorder(Plug(c, t')) == Before(c) + (Inorder(t.left) + [y] + Inorder(t.right)) + After(c)
            && RootOf(Plug(c, t')) == if c.Top? then y else RootOf(Plug(c, t))
  {
    var t' := t.(area := y);
    DistinctPlug(c, t);
    ElemsPlug(c, t);
    DistinctPlug(c, t');
    ElemsPlug(c, t');
    InorderPlug(c, t');
    if !c.Top? { RootPlug(c, t, t'); }
  }

  /** `y`, the right child of `z` and without a left child of its own, takes the place of `z`. */
  ghost predicate Ascends(m: Memory, m': Memory, z: VmArea, y: VmArea, p: VmArea?)
    requires z in m && y in m && (p == null || p in m)
  {
    && m'.Keys == m.Keys - {z}
    && y in m' && m'[y] == Cell(p, m[z].left, m[y].right, m[z].color)
    && (p != null ==> p in m' && m'[p] == if m[p].left == z then m[p].(left := y) else m[p].(right := y))
    && (forall a :: a in m' && a == m[z].left ==> m'[a] == m[a].(parent := y))
    && forall a :: a in m' && a != y && a != p && a != m[z].left ==> m'[a] == m[a]
  }

  lemma {:induction false} AscendShape(c: Ctx, t: Tree, m: Memory, m': Memory)
    requires t.Node? && t.right.Node? && t.right.left.Leaf?
    requires Distinct(Plug(c, t)) && Shape(Plug(c, t), null, m)
    requires t.area in m && t.right.area in m && (!c.Top? ==> c.area in m)
    requires Ascends(m, m', t.area, t.right.area, HoleParent(c))
    ensures Shape(Plug(c, Node(t.left, t.right.area, t.color, t.right.right)), null, m')
  {
    ShapePlug(c, t, m);
    DistinctPlug(c, t);
    var y := t.right.area;
    assert Shape(t.right, t.area, m) && Distinct(t.right);
    Rehole(c, t.area, y, m, m');
    Reparent(t.left, t.area, y, m, m');
    ShapeFrame(t.right.right, y, m, m');
    ShapePlug(c, Node(t.left, y, t.color, t.right.right), m');
  }

  lemma {:induction false} AscendKeeps(c: Ctx, t: Tree)
    requires t.Node? && t.right.Node? && t.right.left.Leaf? && Distinct(Plug(c, t))
    ensures var t' := Node(t.left, t.right.area, t.color, t.right.right);
            && Distinct(Plug(c, t')) && Elems(Plug(c, t')) == Elems(Plug(c, t)) - {t.area}
            && Inorder(Plug(c, t')) == Before(c) + (Inorder(t.left) + Inorder(t.right)) + After(c)
            && RootOf(Plug(c, t')) == if c.Top? then t.right.area else RootOf(Plug(c, t))
  {
    var t' := Node(t.left, t.right.area, t.color, t.right.right);
    DistinctPlug(c, t);
    ElemsPlug(c, t);
    assert Distinct(t.right) && Elems(t.right) == {t.right.area} + Elems(t.right.right);
    DistinctPlug(c, t');
    ElemsPlug(c, t');
    InorderPlug(c, t');
    AscendInorder(t);
    if !c.Top? { RootPlug(c, t, t'); }
  }

  lemma {:induction false} AscendInorder(t: Tree)
    requires t.Node? && t.right.Node? && t.right.left.Leaf?
    ensures Inorder(Node(t.left, t.right.area, t.color, t.right.right)) == Inorder(t.left) + Inorder(t.right)
  {
    var l, y, r := Inorder(t.left), [t.right.area], Inorder(t.right.right);
    assert Inorder(t.right) == y + r by { assert [] + y + r == y + r; }
    assert l + y + r == l + (y + r);
  }

  // ----- unlinking on the heap -----

  /** `rb_transplant`: the parent of `u` gets `v` in place of `u`. */
  method Transplant(idx: VmaIndex, u: VmArea, v: VmArea?, ghost s: set<VmArea>)
    requires u in s && (v != null ==> v in s) && (u.rbParent != null ==> u.rbParent in s)
    modifies idx`root, s`rbLeft, s`rbRight, s`rbParent
    ensures idx.root == if old(u.rbParent) == null then v else old(idx.root)
    ensures forall a :: a in s ==> a.rbParent == if a == v then old(u.rbParent) else old(a.rbParent)
    ensures forall a :: a in s ==>
      a.rbLeft == if a == old(u.rbParent) && old(a.rbLeft) == u then v else old(a.rbLeft)
    ensures forall a :: a in s ==>
      a.rbRight == if a == old(u.rbParent) && old(a.rbLeft) != u then v else old(a.rbRight)
  {
    var up := u.rbParent;
    if up == null {
      idx.root := v;
    } else if u == up.rbLeft {
      up.rbLeft := v;
    } else {
      up.rbRight := v;
    }
    if v != null {
      v.rbParent := up;
    }
  }

  method Bypass(idx: VmaIndex, u: VmArea, v: VmArea?, ghost c: Ctx, ghost t: Tree, ghost vt: Tree,
                ghost s: set<VmArea>, ghost q: seq<VmArea>)
    requires t.Node? && t.area == u && idx.Rep(Plug(c, t), s, q)
    requires (t.left.Leaf? && vt == t.right) || (t.right.Leaf? && vt == t.left)
    requires v == RootOf(vt)
    modifies idx`root, s`rbLeft, s`rbRight, s`rbParent
    ensures idx.Rep(Plug(c, vt), s - {u}, Before(c) + Inorder(vt) + After(c))
  {
    hide Inorder, Before, After, Elems;
    ghost var m := Snap(s);
    HoleFacts(c, t, m);
    BypassKeeps(c, t, vt);
    Transplant(idx, u, v, s);
    BypassShape(c, t, vt, m, Snap(s - {u}));
  }

  method SupplantPointers(idx: VmaIndex, z: VmArea, y: VmArea, ghost s: set<VmArea>)
    requires z in s && y !in s
    requires z.rbParent != null ==> z.rbParent in s && z.rbParent != z
    requires z.rbLeft != null ==> z.rbLeft in s && z.rbLeft != z && z.rbLeft != z.rbParent
    requires z.rbRight != null ==> z.rbRight in s && z.rbRight != z && z.rbRight != z.rbParent && z.rbRight != z.rbLeft
    modifies idx`root, s`rbLeft, s`rbRight, s`rbParent, y`rbLeft, y`rbRight, y`rbParent, y`rbColor
    ensures Supplants(old(Snap(s)), Snap(s - {z} + {y}), z, y, old(z.rbParent))
    ensures idx.root == if old(z.rbParent) == null then y else old(idx.root)
  {
    y.rbRight := z.rbRight;
    if y.rbRight != null {
      y.rbRight.rbParent := y;
    }
    Transplant(idx, z, y, s + {y});
    y.rbLeft := z.rbLeft;
    if y.rbLeft != null {
      y.rbLeft.rbParent := y;
    }
    y.rbColor := z.rbColor;
  }

  method Supplant(idx: VmaIndex, z: VmArea, y: VmArea, ghost c: Ctx, ghost t: Tree,
                  ghost s: set<VmArea>, ghost q: seq<VmArea>)
    requires t.Node? && t.area == z && idx.Rep(Plug(c, t), s, q) && y !in s
    modifies idx`root, s`rbLeft, s`rbRight, s`rbParent, y`rbLeft, y`rbRight, y`rbParent, y`rbColor
    ensures idx.Rep(Plug(c, t.(area := y)), s - {z} + {y},
                    Before(c) + (Inorder(t.left) + [y] + Inorder(t.right)) + After(c))
  {
    ghost var m := Snap(s);
    HoleFacts(c, t, m);
    SupplantKeeps(c, t, y);
    SupplantPointers(idx, z, y, s);
    SupplantShape(c, t, y, m, Snap(s - {z} + {y}));
  }

  method Ascend(idx: VmaIndex, z: VmArea, y: VmArea, ghost c: Ctx, ghost t: Tree,
                ghost s: set<VmArea>, ghost q: seq<VmArea>)
    requires t.Node? && t.area == z && idx.Rep(Plug(c, t), s, q)
    requires t.right.Node? && t.right.area == y && t.right.left.Leaf?
    modifies idx`root, s`rbLeft, s`rbRight, s`rbParent, s`rbColor
    ensures idx.Rep(Plug(c, Node(t.left, y, t.color, t.right.right)), s - {z},
                    Before(c) + (Inorder(t.left) + Inorder(t.right)) + After(c))
  {
    hide Inorder, Before, After, Elems;
    ghost var m := Snap(s);
    HoleFacts(c, t, m);
    AscendKeeps(c, t);
    Transplant(idx, z, y, s);
    y.rbLeft := z.rbLeft;
    if y.rbLeft != null {
      y.rbLeft.rbParent := y;
    }
    y.rbColor := z.rbColor;
    AscendShape(c, t, m, Snap(s - {z}));
  }

  // ----- the successor -----

  /** A context that only ever goes left. */
  ghost predicate LeftSpine(d: Ctx) {
    d.Top? || (d.InLeft? && LeftSpine(d.up))
  }

  lemma {:induction false} SpineBefore(d: Ctx)
    requires LeftSpine(d)
    ensures Before(d) == []
    decreases d
  {
    if !d.Top? { SpineBefore(d.up); }
  }

  /** `rb_minimum`: the leftmost node of the subtree at `v`. */
  method Minimum(idx: VmaIndex, v: VmArea, ghost c: Ctx, ghost t: Tree, ghost s: set<VmArea>, ghost q: seq<VmArea>)
    returns (y: VmArea, ghost d: Ctx, ghost yt: Tree)
    requires t.Node? && t.area == v && idx.Rep(Plug(c, t), s, q)
    ensures t == Plug(d, yt) && LeftSpine(d) && yt.Node? && yt.left.Leaf? && yt.area == y && y in s
  {
    y, d, yt := v, Top, t;
    HoleFacts(c, t, Snap(s));
    while y.rbLeft != null
      invariant t == Plug(d, yt) && LeftSpine(d) && yt.Node? && yt.area == y && y in s
      invariant idx.Rep(Plug(Compose(c, d), yt), s, q) && y.rbLeft == RootOf(yt.left)
      decreases yt
    {
      y, d, yt := y.rbLeft, InLeft(yt.area, yt.color, yt.right, d), yt.left;
      HoleFacts(Compose(c, d), yt, Snap(s));
    }
  }

  // ----- what the fixup starts from -----

  /** The black node at the hole was bypassed. */
  lemma {:induction false} BypassInv(c: Ctx, t: Tree, v: Tree)
    requires t.Node? && RedBlack(Plug(c, t))
    requires (t.left.Leaf? && v == t.right) || (t.right.Leaf? && v == t.left)
    ensures t.color == Black ==> EraseInv(c, v)
    ensures t.color == Red ==> RedBlack(Plug(c, v))
    ensures v.Node? ==> t.color == Black && v.color == Red
  {
    NoRedRedPlug(c, t);
    BalancedPlug(c, t);
    RootBlackPlug(c, t);
    Unfold(t);
    if t.color == Red {
      CtxNoRedRedBlack(c, Red);
      RedBlackPlug(c, v);
    }
  }

  /** Replacing a node further up by another of the same colour changes no invariant. */
  lemma {:induction false} Rename(e: Ctx, e': Ctx, d: Ctx, h: nat, k: Color)
    requires !e.Top? && !e'.Top? && e.InLeft? == e'.InLeft? && e.color == e'.color && e.up == e'.up
    requires Sibling(e) == Sibling(e')
    ensures CtxBalanced(Compose(e, d), h) == CtxBalanced(Compose(e', d), h)
    ensures CtxNoRedRed(Compose(e, d), k) == CtxNoRedRed(Compose(e', d), k)
    ensures CtxRootBlack(Compose(e, d)) == CtxRootBlack(Compose(e', d))
    decreases d
  {
    if !d.Top? { Rename(e, e', d.up, h + Weight(d.color), d.color); }
  }

  lemma {:induction false} RenameInv(e: Ctx, e': Ctx, d: Ctx, t: Tree)
    requires !e.Top? && !e'.Top? && e.InLeft? == e'.InLeft? && e.color == e'.color && e.up == e'.up
    requires Sibling(e) == Sibling(e')
    ensures EraseInv(Compose(e, d), t) ==> EraseInv(Compose(e', d), t)
    ensures RedBlack(Plug(Compose(e, d), t)) ==> RedBlack(Plug(Compose(e', d), t))
  {
    Rename(e, e', d, BlackHeight(t) + 1, Black);
    Rename(e, e', d, BlackHeight(t), ColorOf(t));
    if RedBlack(Plug(Compose(e, d), t)) {
      NoRedRedPlug(Compose(e, d), t);
      BalancedPlug(Compose(e, d), t);
      RootBlackPlug(Compose(e, d), t);
      RedBlackPlug(Compose(e', d), t);
    }
  }

  // ----- rb_erase_node -----

  /** The successor's parent is `z` only if the successor is the right child itself. */
  lemma {:induction false} SpineTop(e: Ctx, t: Tree, d: Ctx, yt: Tree)
    requires t.Node? && Distinct(t) && t.right == Plug(d, yt) && e.InRight? && e.area == t.area
    ensures HoleParent(Compose(e, d)) == t.area <==> d.Top?
  {
    ElemsPlug(d, yt);
  }

  lemma {:induction false} InnerInorder(t: Tree, d: Ctx, yt: Tree)
    requires t.Node? && t.right == Plug(d, yt) && LeftSpine(d) && yt.Node? && yt.left.Leaf?
    ensures Inorder(t.left) + [yt.area] + Inorder(Plug(d, yt.right)) == Inorder(t.left) + Inorder(t.right)
  {
    SpineBefore(d);
    InorderPlug(d, yt);
    InorderPlug(d, yt.right);
    var y, r, a := [yt.area], Inorder(yt.right), After(d);
    assert Inorder(yt) == y + r by { assert [] + y + r == y + r; }
    assert Inorder(t.right) == y + (r + a) by { assert [] + (y + r) + a == y + (r + a); }
    assert Inorder(Plug(d, yt.right)) == r + a by { assert [] + r + a == r + a; }
    assert Inorder(t.left) + y + (r + a) == Inorder(t.left) + (y + (r + a));
  }

  /** Where the fixup starts once the successor `y` has taken the place of `z`. */
  ghost function SuccessorCtx(c: Ctx, t: Tree, d: Ctx, y: VmArea): Ctx
    requires t.Node?
  {
    Compose(InRight(t.left, y, t.color, c), d)
  }

  lemma {:induction false} SuccessorInv(c: Ctx, t: Tree, d: Ctx, yt: Tree)
    requires t.Node? && t.right == Plug(d, yt) && yt.Node? && yt.left.Leaf? && RedBlack(Plug(c, t))
    ensures var c' := SuccessorCtx(c, t, d, yt.area);
            && (yt.color == Black ==> EraseInv(c', yt.right))
            && (yt.color == Red ==> RedBlack(Plug(c', yt.right)))
            && (yt.right.Node? ==> yt.right.color == Red)
  {
    var e, e' := InRight(t.left, t.area, t.color, c), InRight(t.left, yt.area, t.color, c);
    PlugCompose(e, d, yt);
    BypassInv(Compose(e, d), yt, yt.right);
    RenameInv(e, e', d, yt.right);
  }

  /** The successor sits further down: bypass it, then put it in the place of `z`. */
  method EraseBySuccessor(idx: VmaIndex, z: VmArea, y: VmArea, ghost c: Ctx, ghost t: Tree, ghost d: Ctx, ghost yt: Tree,
                          ghost s: set<VmArea>, ghost q: seq<VmArea>)
    requires t.Node? && t.area == z && idx.Rep(Plug(c, t), s, q) && y in s && y != z
    requires t.right == Plug(d, yt) && LeftSpine(d) && yt.Node? && yt.left.Leaf? && yt.area == y
    modifies idx`root, s`rbLeft, s`rbRight, s`rbParent, s`rbColor
    ensures idx.Rep(Plug(SuccessorCtx(c, t, d, y), yt.right), s - {z},
                    Before(c) + (Inorder(t.left) + Inorder(t.right)) + After(c))
  {
    hide Inorder, Before, After, Elems;
    ghost var e, e' := InRight(t.left, z, t.color, c), InRight(t.left, y, t.color, c);
    ghost var f, x := Compose(e, d), yt.right;
    PlugCompose(e, d, yt);
    PlugCompose(e, d, x);
    PlugCompose(e', d, x);
    HoleFacts(f, yt, Snap(s));
    Bypass(idx, y, y.rbRight, f, yt, x, s, q);
    Supplant(idx, z, y, c, Node(t.left, z, t.color, Plug(d, x)), s - {y}, Before(f) + Inorder(x) + After(f));
    InnerInorder(t, d, yt);
    assert s - {y} - {z} + {y} == s - {z};
  }

  /** `z` has two children: its successor `y` takes its place.  `xIsLeft` is computed before the
      transplant, as in the code: it is wrong when `x` is not null, but then `x` is red. */
  method EraseInner(idx: VmaIndex, z: VmArea, ghost c: Ctx, ghost t: Tree, ghost s: set<VmArea>, ghost q: seq<VmArea>)
    returns (x: VmArea?, xp: VmArea?, xIsLeft: bool, color: Color, ghost c': Ctx, ghost t': Tree)
    requires t.Node? && t.left.Node? && t.right.Node? && t.area == z
    requires idx.Rep(Plug(c, t), s, q) && RedBlack(Plug(c, t))
    modifies idx`root, s`rbLeft, s`rbRight, s`rbParent, s`rbColor
    ensures idx.Rep(Plug(c', t'), s - {z}, Before(c) + (Inorder(t.left) + Inorder(t.right)) + After(c))
    ensures x == RootOf(t') && xp == HoleParent(c')
    ensures color == Black ==> EraseInv(c', t') && (ColorOf(t') == Black && !c'.Top? ==> (xIsLeft <==> c'.InLeft?))
    ensures color == Red ==> RedBlack(Plug(c', t'))
  {
    HoleFacts(c, t, Snap(s));
    ghost var e := InRight(t.left, z, t.color, c);
    var y;
    ghost var d, yt;
    y, d, yt := Minimum(idx, z.rbRight, e, t.right, s, q);
    PlugCompose(e, d, yt);
    HoleFacts(Compose(e, d), yt, Snap(s));
    DistinctPlug(c, t);
    SpineTop(e, t, d, yt);
    color := y.rbColor;
    x := y.rbRight;
    SuccessorInv(c, t, d, yt);
    c', t' := SuccessorCtx(c, t, d, y), yt.right;
    if y.rbParent == z {
      xp := y;
      xIsLeft := false;
      Ascend(idx, z, y, c, t, s, q);
    } else {
      xp := y.rbParent;
      xIsLeft := (x != null && x == xp.rbLeft) || (x == null && y == xp.rbLeft);
      ElemsPlug(d, yt);
      EraseBySuccessor(idx, z, y, c, t, d, yt, s, q);
    }
  }

  /** `rb_erase_node`: any node of any red-black tree. */
  method EraseNode(idx: VmaIndex, z: VmArea, ghost c: Ctx, ghost t: Tree, ghost s: set<VmArea>, ghost q: seq<VmArea>)
    returns (ghost t': Tree)
    requires t.Node? && t.area == z && idx.Rep(Plug(c, t), s, q) && RedBlack(Plug(c, t))
    modifies idx`root, s`rbLeft, s`rbRight, s`rbParent, s`rbColor
    ensures idx.Rep(t', s - {z}, Before(c) + (Inorder(t.left) + Inorder(t.right)) + After(c)) && RedBlack(t')
  {
    HoleFacts(c, t, Snap(s));
    var x, xp, xIsLeft, color := null, null, false, z.rbColor;
    ghost var e, u;
    ghost var q' := Before(c) + (Inorder(t.left) + Inorder(t.right)) + After(c);
    if z.rbLeft == null {
      x, xp := z.rbRight, z.rbParent;
      xIsLeft := xp != null && z == xp.rbLeft;
      e, u := c, t.right;
      BypassInv(c, t, u);
      assert Inorder(t.left) + Inorder(t.right) == Inorder(u);
      Bypass(idx, z, z.rbRight, c, t, u, s, q);
    } else if z.rbRight == null {
      x, xp := z.rbLeft, z.rbParent;
      xIsLeft := xp != null && z == xp.rbLeft;
      e, u := c, t.left;
      BypassInv(c, t, u);
      assert Inorder(t.left) + Inorder(t.right) == Inorder(u);
      Bypass(idx, z, z.rbLeft, c, t, u, s, q);
    } else {
      x, xp, xIsLeft, color, e, u := EraseInner(idx, z, c, t, s, q);
    }
    if color == Black {
      t' := idx.EraseFixup(x, xp, xIsLeft, e, u, s - {z}, q');
    } else {
      t' := Plug(e, u);
    }
  }
}
