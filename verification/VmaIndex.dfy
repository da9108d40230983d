/** kernel/mm/vma.c on the heap: the pointer code, proved against the tree values of `VmaTree` and
    the rebalancing cases of `VmaBalance`.

    Ghost parameters: `c` and `t` are the context and subtree at the node the code is looking at,
    `s` the set of nodes and `q` their in-order sequence. */
module VmaIndex {
  import opened VmaTree
  import opened VmaBalance

  /** The pointer fields of the nodes in `s`. */
  ghost function Snap(s: set<VmArea>): Memory
    reads s
  {
    map a | a in s :: Cell(a.rbParent, a.rbLeft, a.rbRight, a.rbColor)
  }

  /** `m'` differs from `m` only in the cells a left rotation at `x` rewrites: `y` takes the place of
      `x` below `p`, and `x` adopts the old left child `b` of `y`. */
  ghost predicate RotatesLeft(m: Memory, m': Memory, x: VmArea, y: VmArea, b: VmArea?, p: VmArea?)
    requires x in m && y in m && (b == null || b in m) && (p == null || p in m)
  {
    && m'.Keys == m.Keys
    && m'[x] == m[x].(right := b, parent := y)
    && m'[y] == m[y].(left := x, parent := p)
    && (b != null ==> m'[b] == m[b].(parent := x))
    && (p != null ==> m'[p] == if m[p].left == x then m[p].(left := y) else m[p].(right := y))
    && forall a :: a in m && a != x && a != y && a != b && a != p ==> m'[a] == m[a]
  }

  ghost predicate RotatesRight(m: Memory, m': Memory, x: VmArea, y: VmArea, b: VmArea?, p: VmArea?)
    requires x in m && y in m && (b == null || b in m) && (p == null || p in m)
  {
    && m'.Keys == m.Keys
    && m'[x] == m[x].(left := b, parent := y)
    && m'[y] == m[y].(right := x, parent := p)
    && (b != null ==> m'[b] == m[b].(parent := x))
    && (p != null ==> m'[p] == if m[p].right == x then m[p].(right := y) else m[p].(left := y))
    && forall a :: a in m && a != x && a != y && a != b && a != p ==> m'[a] == m[a]
  }

  /** What the pointers around a hole look like. */
  lemma {:induction false} HoleFacts(c: Ctx, t: Tree, m: Memory)
    requires t.Node? && Distinct(Plug(c, t)) && Shape(Plug(c, t), null, m)
    ensures t.area in m && m[t.area] == Cell(HoleParent(c), RootOf(t.left), RootOf(t.right), t.color)
    ensures !c.Top? ==> c.area in m && c.area != t.area && m[c.area].color == c.color
    ensures !c.Top? ==> m[c.area].parent == HoleParent(c.up)
    ensures !c.Top? ==> t.area == if c.InLeft? then m[c.area].left else m[c.area].right
    ensures !c.Top? ==> t.area != if c.InLeft? then m[c.area].right else m[c.area].left
    ensures t.left.Node? ==> t.left.area in m && t.left.area != t.area && HoleParent(c) != t.left.area
    ensures t.right.Node? ==> t.right.area in m && t.right.area != t.area && HoleParent(c) != t.right.area
    ensures t.left.Node? && t.right.Node? ==> t.left.area != t.right.area
  {
    ShapePlug(c, t, m);
    DistinctPlug(c, t);
  }

  lemma {:induction false} RotateLeftShape(c: Ctx, t: Tree, m: Memory, m': Memory)
    requires t.Node? && t.right.Node? && t.area in m && t.right.area in m
    requires (t.right.left.Node? ==> t.right.left.area in m) && (!c.Top? ==> c.area in m)
    requires Distinct(Plug(c, t)) && Shape(Plug(c, t), null, m)
    requires RotatesLeft(m, m', t.area, t.right.area, RootOf(t.right.left), HoleParent(c))
    ensures Shape(Plug(c, RotatedLeft(t)), null, m')
  {
    ShapePlug(c, t, m);
    DistinctPlug(c, t);
    assert CtxShape(c, t.right.area, m') by { Rehole(c, t.area, t.right.area, m, m'); }
    assert Shape(RotatedLeft(t), HoleParent(c), m') by {
      ShapeFrame(t.left, t.area, m, m');
      Reparent(t.right.left, t.right.area, t.area, m, m');
      ShapeFrame(t.right.right, t.right.area, m, m');
    }
    ShapePlug(c, RotatedLeft(t), m');
  }

  lemma {:induction false} RotateRightShape(c: Ctx, t: Tree, m: Memory, m': Memory)
    requires t.Node? && t.left.Node? && t.area in m && t.left.area in m
    requires (t.left.right.Node? ==> t.left.right.area in m) && (!c.Top? ==> c.area in m)
    requires Distinct(Plug(c, t)) && Shape(Plug(c, t), null, m)
    requires RotatesRight(m, m', t.area, t.left.area, RootOf(t.left.right), HoleParent(c))
    ensures Shape(Plug(c, RotatedRight(t)), null, m')
  {
    ShapePlug(c, t, m);
    DistinctPlug(c, t);
    assert CtxShape(c, t.left.area, m') by { Rehole(c, t.area, t.left.area, m, m'); }
    assert Shape(RotatedRight(t), HoleParent(c), m') by {
      ShapeFrame(t.right, t.area, m, m');
      Reparent(t.left.right, t.left.area, t.area, m, m');
      ShapeFrame(t.left.left, t.left.area, m, m');
    }
    ShapePlug(c, RotatedRight(t), m');
  }

  /** A rotation keeps the in-order sequence and the set of nodes. */
  lemma {:induction false} RotatedLeftSame(t: Tree)
    requires t.Node? && t.right.Node?
    ensures Inorder(RotatedLeft(t)) == Inorder(t) && Elems(RotatedLeft(t)) == Elems(t)
    ensures Distinct(t) ==> Distinct(RotatedLeft(t))
  {
    var a, b, y, d := Inorder(t.left) + [t.area], Inorder(t.right.left), [t.right.area], Inorder(t.right.right);
    assert Inorder(RotatedLeft(t)) == (a + b) + y + d;
    assert Inorder(t) == a + (b + y + d);
    assert Elems(t.right) == Elems(t.right.left) + {t.right.area} + Elems(t.right.right);
    if Distinct(t) {
      assert Distinct(t.right);
      assert Distinct(RotatedLeft(t).left);
    }
  }

  lemma {:induction false} RotatedRightDistinct(t: Tree)
    requires t.Node? && t.left.Node?
    ensures RotatedLeft(RotatedRight(t)) == t
    ensures Distinct(t) ==> Distinct(RotatedRight(t))
  {
    assert Elems(t.left) == Elems(t.left.left) + {t.left.area} + Elems(t.left.right);
    if Distinct(t) {
      assert Distinct(t.left);
      assert Distinct(RotatedRight(t).right);
    }
  }

  lemma {:induction false} RotateLeftKeeps(c: Ctx, t: Tree)
    requires t.Node? && t.right.Node? && Distinct(Plug(c, t))
    ensures var t' := Plug(c, RotatedLeft(t));
            && Distinct(t') && Elems(t') == Elems(Plug(c, t)) && Inorder(t') == Inorder(Plug(c, t))
            && RootOf(t') == if c.Top? then t.right.area else RootOf(Plug(c, t))
  {
    DistinctPlug(c, t);
    RotatedLeftSame(t);
    SwapHole(c, t, RotatedLeft(t));
  }

  lemma {:induction false} RotateRightKeeps(c: Ctx, t: Tree)
    requires t.Node? && t.left.Node? && Distinct(Plug(c, t))
    ensures var t' := Plug(c, RotatedRight(t));
            && Distinct(t') && Elems(t') == Elems(Plug(c, t)) && Inorder(t') == Inorder(Plug(c, t))
            && RootOf(t') == if c.Top? then t.left.area else RootOf(Plug(c, t))
  {
    DistinctPlug(c, t);
    RotatedLeftSame(RotatedRight(t));
    RotatedRightDistinct(t);
    SwapHole(c, t, RotatedRight(t));
  }

  lemma {:induction false} RecolorKeeps(c: Ctx, t: Tree, k: Color, m: Memory, m': Memory)
    requires t.Node? && Distinct(Plug(c, t)) && Shape(Plug(c, t), null, m)
    requires t.area in m && m' == m[t.area := m[t.area].(color := k)]
    ensures var t' := Plug(c, t.(color := k));
            && Distinct(t') && Elems(t') == Elems(Plug(c, t)) && Inorder(t') == Inorder(Plug(c, t))
            && RootOf(t') == RootOf(Plug(c, t)) && Shape(t', null, m')
  {
    var t' := t.(color := k);
    ShapePlug(c, t, m);
    DistinctPlug(c, t);
    CtxShapeFrame(c, t.area, m, m');
    ShapeFrame(t.left, t.area, m, m');
    ShapeFrame(t.right, t.area, m, m');
    ShapePlug(c, t', m');
    SwapHole(c, t, t');
  }

  /** The sibling of the hole and its children, seen from the parent. */
  lemma {:induction false} SiblingFacts(c: Ctx, t: Tree, m: Memory)
    requires !c.Top? && Sibling(c).Node? && Distinct(Plug(c, t)) && Shape(Plug(c, t), null, m)
    ensures c.area in m && Sibling(c).area == if c.InLeft? then m[c.area].right else m[c.area].left
    ensures var w := Sibling(c);
            && w.area in m && m[w.area] == Cell(c.area, RootOf(w.left), RootOf(w.right), w.color)
            && (w.left.Node? ==> w.left.area in m && m[w.left.area].color == w.left.color)
            && (w.right.Node? ==> w.right.area in m && m[w.right.area].color == w.right.color)
  {
    ShapePlug(c, t, m);
    var w := Sibling(c);
    assert Shape(w, c.area, m);
    assert Shape(w.left, w.area, m) && Shape(w.right, w.area, m);
  }

  /** The hole is at the root exactly when the context is empty. */
  lemma {:induction false} AtRoot(c: Ctx, t: Tree, m: Memory)
    requires Distinct(Plug(c, t)) && Shape(Plug(c, t), null, m)
    ensures RootOf(t) == RootOf(Plug(c, t)) <==> c.Top?
    ensures t.Node? ==> t.area in m && m[t.area].color == t.color && m[t.area].parent == HoleParent(c)
    ensures t.Node? && !c.Top? ==> c.area in m && (t.area == m[c.area].left <==> c.InLeft?)
  {
    if t.Node? { HoleFacts(c, t, m); }
    if !c.Top? {
      RootPlug(c, t, t);
      if t.Node? {
        ShapePlug(Top, Plug(c, t), m);
        assert m[RootOf(Plug(c, t))].parent == null;
      }
    }
  }

  /** The measure of the erase loop: it stops at a red node, and otherwise climbs. */
  ghost function Rank(c: Ctx, t: Tree): nat {
    if ColorOf(t) == Red then 0 else Depth(c) + 1
  }

  /** The per-process index: the root of the tree and the sentinel of the list.  The sentinel is
      modelled as a `VmArea` of which only the list links are used. */
  class VmaIndex {
    var root: VmArea?
    const head: VmArea
    ghost var tree: Tree
    ghost var nodes: set<VmArea>
    ghost var areas: seq<VmArea>

    constructor (head: VmArea)
      ensures root == null && this.head == head && tree == Leaf && nodes == {} && areas == []
    {
      root, this.head, tree, nodes, areas := null, head, Leaf, {}, [];
    }

    /** The pointers reachable from `root` are exactly the tree `t`. */
    ghost predicate Rep(t: Tree, s: set<VmArea>, q: seq<VmArea>)
      reads this, s
    {
      && root == RootOf(t) && Elems(t) == s && Inorder(t) == q
      && Distinct(t) && Shape(t, null, Snap(s))
    }

    // ----- rb_rotate_left, rb_rotate_right, rb_set_color -----

    method RotateLeftPointers(x: VmArea, y: VmArea, ghost s: set<VmArea>)
      requires x in s && y in s && x != y && x.rbRight == y
      requires x.rbParent != null ==> x.rbParent in s && x.rbParent != y.rbLeft
      requires y.rbLeft != null ==> y.rbLeft in s
      requires y.rbLeft != x && y.rbLeft != y && x.rbParent != x && x.rbParent != y
      modifies this`root, s`rbLeft, s`rbRight, s`rbParent
      ensures RotatesLeft(old(Snap(s)), Snap(s), x, y, old(y.rbLeft), old(x.rbParent))
      ensures root == if old(x.rbParent) == null then y else old(root)
    {
      x.rbRight := y.rbLeft;
      if y.rbLeft != null {
        y.rbLeft.rbParent := x;
      }
      y.rbLeft := x;
      var p := x.rbParent;
      if p == null {
        root := y;
      } else if x == p.rbLeft {
        p.rbLeft := y;
      } else {
        p.rbRight := y;
      }
      y.rbParent := p;
      x.rbParent := y;
    }

    method RotateRightPointers(x: VmArea, y: VmArea, ghost s: set<VmArea>)
      requires x in s && y in s && x != y && x.rbLeft == y
      requires x.rbParent != null ==> x.rbParent in s && x.rbParent != y.rbRight
      requires y.rbRight != null ==> y.rbRight in s
      requires y.rbRight != x && y.rbRight != y && x.rbParent != x && x.rbParent != y
      modifies this`root, s`rbLeft, s`rbRight, s`rbParent
      ensures RotatesRight(old(Snap(s)), Snap(s), x, y, old(y.rbRight), old(x.rbParent))
      ensures root == if old(x.rbParent) == null then y else old(root)
    {
      x.rbLeft := y.rbRight;
      if y.rbRight != null {
        y.rbRight.rbParent := x;
      }
      y.rbRight := x;
      var p := x.rbParent;
      if p == null {
        root := y;
      } else if x == p.rbRight {
        p.rbRight := y;
      } else {
        p.rbLeft := y;
      }
      y.rbParent := p;
      x.rbParent := y;
    }

    method RotateLeft(x: VmArea, ghost c: Ctx, ghost t: Tree, ghost s: set<VmArea>, ghost q: seq<VmArea>)
      requires t.Node? && t.right.Node? && t.area == x && Rep(Plug(c, t), s, q)
      modifies this`root, s`rbLeft, s`rbRight, s`rbParent
      ensures Rep(Plug(c, RotatedLeft(t)), s, q)
    {
      ghost var m := Snap(s);
      HoleFacts(c, t, m);
      HoleFacts(InRight(t.left, x, t.color, c), t.right, m);
      DistinctPlug(c, t);
      RotateLeftKeeps(c, t);
      RotateLeftPointers(x, x.rbRight, s);
      RotateLeftShape(c, t, m, Snap(s));
    }

    method RotateRight(x: VmArea, ghost c: Ctx, ghost t: Tree, ghost s: set<VmArea>, ghost q: seq<VmArea>)
      requires t.Node? && t.left.Node? && t.area == x && Rep(Plug(c, t), s, q)
      modifies this`root, s`rbLeft, s`rbRight, s`rbParent
      ensures Rep(Plug(c, RotatedRight(t)), s, q)
    {
      ghost var m := Snap(s);
      HoleFacts(c, t, m);
      HoleFacts(InLeft(x, t.color, t.right, c), t.left, m);
      DistinctPlug(c, t);
      RotateRightKeeps(c, t);
      RotateRightPointers(x, x.rbLeft, s);
      RotateRightShape(c, t, m, Snap(s));
    }

    method Recolor(x: VmArea, k: Color, ghost c: Ctx, ghost t: Tree, ghost s: set<VmArea>, ghost q: seq<VmArea>)
      requires t.Node? && t.area == x && Rep(Plug(c, t), s, q)
      modifies s`rbColor
      ensures Rep(Plug(c, t.(color := k)), s, q)
    {
      ghost var m := Snap(s);
      HoleFacts(c, t, m);
      x.rbColor := k;
      assert Snap(s) == m[x := m[x].(color := k)];
      RecolorKeeps(c, t, k, m, Snap(s));
    }

    // ----- rb_insert_fixup -----

    /** Red uncle: parent and uncle turn black, the grandparent red. */
    method InsertRecolor(p: VmArea, u: VmArea, g: VmArea, ghost c: Ctx, ghost t: Tree,
                         ghost s: set<VmArea>, ghost q: seq<VmArea>)
      requires Rep(Plug(c, t), s, q) && !c.Top? && !c.up.Top? && UncleOf(c).Node?
      requires p == c.area && g == c.up.area && u == UncleOf(c).area
      modifies s`rbColor
      ensures Rep(Plug(c.up.up, InsertRecolored(c, t)), s, q)
    {
      ghost var pt := Fill(c, t);
      ghost var up := c.up;
      Recolor(p, Black, up, pt, s, q);
      ghost var pt' := Blacken(pt);
      ghost var uc := if up.InLeft? then InRight(pt', g, up.color, up.up) else InLeft(g, up.color, pt', up.up);
      ghost var ut := UncleOf(c);
      assert Plug(up, pt') == Plug(uc, ut);
      Recolor(u, Black, uc, ut, s, q);
      Recolor(g, Red, up.up, Fill(uc, Blacken(ut)), s, q);
    }

    /** Black uncle, parent on the left: rotate `z` outwards if it is an inner child, then rotate the
        grandparent right. */
    method InsertRotateRight(z: VmArea, ghost c: Ctx, ghost t: Tree, ghost s: set<VmArea>, ghost q: seq<VmArea>)
      returns (z': VmArea, ghost c': Ctx, ghost t': Tree)
      requires Rep(Plug(c, t), s, q) && InsertInv(c, t) && t.area == z
      requires !c.Top? && c.color == Red && c.up.InLeft? && ColorOf(c.up.right) == Black
      modifies this`root, s`rbLeft, s`rbRight, s`rbParent, s`rbColor
      ensures Rep(Plug(c', t'), s, q) && InsertInv(c', t') && t'.area == z' && Depth(c') < Depth(c)
    {
      HoleFacts(c, t, Snap(s));
      HoleFacts(c.up, Fill(c, t), Snap(s));
      var p := z.rbParent;
      var g := p.rbParent;
      z', c', t' := z, c, t;
      if z == p.rbRight {
        z' := p;
        RotateLeft(z', c.up, Fill(c, t), s, q);
        RotateOutLeftInv(c, t);
        c', t' := RotatedOutLeft(c, t).0, RotatedOutLeft(c, t).1;
        HoleFacts(c', t', Snap(s));
        p := z'.rbParent;
        g := p.rbParent;
      }
      Recolor(p, Black, c'.up, Fill(c', t'), s, q);
      ghost var gt := Fill(c'.up, Blacken(Fill(c', t')));
      Recolor(g, Red, c'.up.up, gt, s, q);
      RotateRight(g, c'.up.up, Redden(gt), s, q);
      InsertRotateInv(c', t');
      c' := InsertRotated(c');
    }

    method InsertRotateLeft(z: VmArea, ghost c: Ctx, ghost t: Tree, ghost s: set<VmArea>, ghost q: seq<VmArea>)
      returns (z': VmArea, ghost c': Ctx, ghost t': Tree)
      requires Rep(Plug(c, t), s, q) && InsertInv(c, t) && t.area == z
      requires !c.Top? && c.color == Red && c.up.InRight? && ColorOf(c.up.left) == Black
      modifies this`root, s`rbLeft, s`rbRight, s`rbParent, s`rbColor
      ensures Rep(Plug(c', t'), s, q) && InsertInv(c', t') && t'.area == z' && Depth(c') < Depth(c)
    {
      HoleFacts(c, t, Snap(s));
      HoleFacts(c.up, Fill(c, t), Snap(s));
      var p := z.rbParent;
      var g := p.rbParent;
      z', c', t' := z, c, t;
      if z == p.rbLeft {
        z' := p;
        RotateRight(z', c.up, Fill(c, t), s, q);
        RotateOutRightInv(c, t);
        c', t' := RotatedOutRight(c, t).0, RotatedOutRight(c, t).1;
        HoleFacts(c', t', Snap(s));
        p := z'.rbParent;
        g := p.rbParent;
      }
      Recolor(p, Black, c'.up, Fill(c', t'), s, q);
      ghost var gt := Fill(c'.up, Blacken(Fill(c', t')));
      Recolor(g, Red, c'.up.up, gt, s, q);
      RotateLeft(g, c'.up.up, Redden(gt), s, q);
      InsertRotateInv(c', t');
      c' := InsertRotated(c');
    }

    /** One turn of the loop, for a red `z` below a red parent. */
    method InsertStep(z: VmArea, ghost c: Ctx, ghost t: Tree, ghost s: set<VmArea>, ghost q: seq<VmArea>)
      returns (z': VmArea, ghost c': Ctx, ghost t': Tree)
      requires Rep(Plug(c, t), s, q) && InsertInv(c, t) && t.area == z && !c.Top? && c.color == Red
      modifies this`root, s`rbLeft, s`rbRight, s`rbParent, s`rbColor
      ensures Rep(Plug(c', t'), s, q) && InsertInv(c', t') && t'.area == z' && Depth(c') < Depth(c)
    {
      hide Inorder;
      InsertGrandparent(c, t);
      HoleFacts(c, t, Snap(s));
      ShapePlug(c.up, Fill(c, t), Snap(s));
      assert Depth(c.up) == 1 + Depth(c.up.up);
      var p := z.rbParent;
      var g := p.rbParent;
      DistinctPlug(c.up, Fill(c, t));
      if p == g.rbLeft {
        assert c.up.InLeft?;
        var u := g.rbRight;
        if u != null && u.rbColor == Red {
          InsertRecolorInv(c, t);
          InsertRecolor(p, u, g, c, t, s, q);
          z', c', t' := g, c.up.up, InsertRecolored(c, t);
        } else {
          z', c', t' := InsertRotateRight(z, c, t, s, q);
        }
      } else {
        var u := g.rbLeft;
        if u != null && u.rbColor == Red {
          InsertRecolorInv(c, t);
          InsertRecolor(p, u, g, c, t, s, q);
          z', c', t' := g, c.up.up, InsertRecolored(c, t);
        } else {
          z', c', t' := InsertRotateLeft(z, c, t, s, q);
        }
      }
    }

    method InsertFixup(z0: VmArea, ghost c0: Ctx, ghost t0: Tree, ghost s: set<VmArea>, ghost q: seq<VmArea>)
      returns (ghost t': Tree)
      requires Rep(Plug(c0, t0), s, q) && InsertInv(c0, t0) && t0.area == z0
      modifies this`root, s`rbLeft, s`rbRight, s`rbParent, s`rbColor
      ensures Rep(t', s, q) && RedBlack(t')
    {
      var z := z0;
      ghost var c, t := c0, t0;
      HoleFacts(c, t, Snap(s));
      while z.rbParent != null && z.rbParent.rbColor == Red
        invariant Rep(Plug(c, t), s, q) && InsertInv(c, t) && t.area == z && z in s
        invariant z.rbParent == HoleParent(c) && (!c.Top? ==> c.area in s && c.area.rbColor == c.color)
        decreases Depth(c)
      {
        z, c, t := InsertStep(z, c, t, s, q);
        HoleFacts(c, t, Snap(s));
      }
      InsertDone(c, t);
      t' := Plug(c, t);
      if !c.Top? { RootPlug(c, t, t); }
      Recolor(root, Black, Top, t', s, q);
      t' := Blacken(t');
    }

    // ----- rb_erase_fixup -----

    /** Red sibling on the right: swap colours with the parent and rotate it above. */
    method EraseRotateRedLeft(xp: VmArea, w: VmArea, ghost c: Ctx, ghost t: Tree,
                              ghost s: set<VmArea>, ghost q: seq<VmArea>)
      requires Rep(Plug(c, t), s, q) && c.InLeft? && c.right.Node? && xp == c.area && w == c.right.area
      modifies this`root, s`rbLeft, s`rbRight, s`rbParent, s`rbColor
      ensures Rep(Plug(EraseRedSibling(c), t), s, q)
    {
      Recolor(w, Black, InRight(t, xp, c.color, c.up), c.right, s, q);
      ghost var pt := Node(t, xp, c.color, Blacken(c.right));
      Recolor(xp, Red, c.up, pt, s, q);
      RotateLeft(xp, c.up, Redden(pt), s, q);
    }

    method EraseRotateRedRight(xp: VmArea, w: VmArea, ghost c: Ctx, ghost t: Tree,
                               ghost s: set<VmArea>, ghost q: seq<VmArea>)
      requires Rep(Plug(c, t), s, q) && c.InRight? && c.left.Node? && xp == c.area && w == c.left.area
      modifies this`root, s`rbLeft, s`rbRight, s`rbParent, s`rbColor
      ensures Rep(Plug(EraseRedSibling(c), t), s, q)
    {
      Recolor(w, Black, InLeft(xp, c.color, t, c.up), c.left, s, q);
      ghost var pt := Node(Blacken(c.left), xp, c.color, t);
      Recolor(xp, Red, c.up, pt, s, q);
      RotateRight(xp, c.up, Redden(pt), s, q);
    }

    /** Inner nephew red, outer black: rotate the nephew above the sibling. */
    method EraseRotateInnerLeft(w: VmArea, ghost c: Ctx, ghost t: Tree, ghost s: set<VmArea>, ghost q: seq<VmArea>)
      requires Rep(Plug(c, t), s, q) && c.InLeft? && c.right.Node? && c.right.left.Node? && w == c.right.area
      modifies this`root, s`rbLeft, s`rbRight, s`rbParent, s`rbColor
      ensures Rep(Plug(EraseInnerRotated(c), t), s, q)
    {
      ghost var e := InRight(t, c.area, c.color, c.up);
      ghost var wt := c.right;
      HoleFacts(e, wt, Snap(s));
      Recolor(w.rbLeft, Black, InLeft(w, wt.color, wt.right, e), wt.left, s, q);
      ghost var wt' := wt.(left := Blacken(wt.left));
      Recolor(w, Red, e, wt', s, q);
      RotateRight(w, e, Redden(wt'), s, q);
    }

    method EraseRotateInnerRight(w: VmArea, ghost c: Ctx, ghost t: Tree, ghost s: set<VmArea>, ghost q: seq<VmArea>)
      requires Rep(Plug(c, t), s, q) && c.InRight? && c.left.Node? && c.left.right.Node? && w == c.left.area
      modifies this`root, s`rbLeft, s`rbRight, s`rbParent, s`rbColor
      ensures Rep(Plug(EraseInnerRotated(c), t), s, q)
    {
      ghost var e := InLeft(c.area, c.color, t, c.up);
      ghost var wt := c.left;
      HoleFacts(e, wt, Snap(s));
      Recolor(w.rbRight, Black, InRight(wt.left, w, wt.color, e), wt.right, s, q);
      ghost var wt' := wt.(right := Blacken(wt.right));
      Recolor(w, Red, e, wt', s, q);
      RotateLeft(w, e, Redden(wt'), s, q);
    }

    /** Outer nephew red: the closing rotation. */
    method EraseCloseLeft(xp: VmArea, w: VmArea, ghost c: Ctx, ghost t: Tree, ghost s: set<VmArea>, ghost q: seq<VmArea>)
      requires Rep(Plug(c, t), s, q) && c.InLeft? && c.right.Node? && c.right.right.Node?
      requires xp == c.area && w == c.right.area
      modifies this`root, s`rbLeft, s`rbRight, s`rbParent, s`rbColor
      ensures Rep(Plug(c.up, EraseClosed(c, t)), s, q)
    {
      ghost var e := InRight(t, xp, c.color, c.up);
      HoleFacts(e, c.right, Snap(s));
      Recolor(w, xp.rbColor, e, c.right, s, q);
      ghost var wt := c.right.(color := c.color);
      Recolor(xp, Black, c.up, Node(t, xp, c.color, wt), s, q);
      e := InRight(t, xp, Black, c.up);
      HoleFacts(e, wt, Snap(s));
      Recolor(w.rbRight, Black, InRight(wt.left, w, wt.color, e), wt.right, s, q);
      wt := wt.(right := Blacken(wt.right));
      assert Rep(Plug(e, wt), s, q);
      RotateLeft(xp, c.up, Node(t, xp, Black, wt), s, q);
    }

    method EraseCloseRight(xp: VmArea, w: VmArea, ghost c: Ctx, ghost t: Tree, ghost s: set<VmArea>, ghost q: seq<VmArea>)
      requires Rep(Plug(c, t), s, q) && c.InRight? && c.left.Node? && c.left.left.Node?
      requires xp == c.area && w == c.left.area
      modifies this`root, s`rbLeft, s`rbRight, s`rbParent, s`rbColor
      ensures Rep(Plug(c.up, EraseClosed(c, t)), s, q)
    {
      ghost var e := InLeft(xp, c.color, t, c.up);
      HoleFacts(e, c.left, Snap(s));
      Recolor(w, xp.rbColor, e, c.left, s, q);
      ghost var wt := c.left.(color := c.color);
      Recolor(xp, Black, c.up, Node(wt, xp, c.color, t), s, q);
      e := InLeft(xp, Black, t, c.up);
      HoleFacts(e, wt, Snap(s));
      Recolor(w.rbLeft, Black, InLeft(w, wt.color, wt.right, e), wt.left, s, q);
      wt := wt.(left := Blacken(wt.left));
      assert Rep(Plug(e, wt), s, q);
      RotateRight(xp, c.up, Node(wt, xp, Black, t), s, q);
    }

    /** One turn of the loop with `x` on the left.  Either the shortage moves up to a new `x`, or
        the tree is red-black again and `done` is set (the `break` of the code). */
    method EraseStepLeft(xp: VmArea, ghost c: Ctx, ghost t: Tree, ghost s: set<VmArea>, ghost q: seq<VmArea>)
      returns (done: bool, x': VmArea?, ghost c': Ctx, ghost t': Tree)
      requires Rep(Plug(c, t), s, q) && EraseInv(c, t) && ColorOf(t) == Black && c.InLeft? && xp == c.area
      modifies this`root, s`rbLeft, s`rbRight, s`rbParent, s`rbColor
      ensures Rep(Plug(c', t'), s, q) && x' == RootOf(t')
      ensures done ==> c'.Top? && RedBlack(t')
      ensures !done ==> EraseInv(c', t') && Rank(c', t') < Rank(c, t) && x' == xp
    {
      hide RedBlack, Inorder, Elems, NoRedRed, Balanced, CtxNoRedRed, CtxBalanced, CtxRootBlack;
      SiblingExists(c, t);
      SiblingFacts(c, t, Snap(s));
      c', t' := c, t;
      var w := xp.rbRight;
      if w.rbColor == Red {
        EraseRedSiblingInv(c, t);
        EraseRotateRedLeft(xp, w, c, t, s, q);
        c' := EraseRedSibling(c);
        SiblingFacts(c', t, Snap(s));
        w := xp.rbRight;
      }
      if (w.rbLeft == null || w.rbLeft.rbColor == Black) && (w.rbRight == null || w.rbRight.rbColor == Black) {
        EraseRecolorInv(c', t);
        Recolor(w, Red, InRight(t, xp, c'.color, c'.up), c'.right, s, q);
        done, x', t', c' := false, xp, EraseRecolored(c', t), c'.up;
      } else {
        if w.rbRight == null || w.rbRight.rbColor == Black {
          EraseInnerInv(c', t);
          EraseRotateInnerLeft(w, c', t, s, q);
          c' := EraseInnerRotated(c');
          SiblingFacts(c', t, Snap(s));
          w := xp.rbRight;
        }
        EraseCloseInv(c', t);
        EraseCloseLeft(xp, w, c', t, s, q);
        done, x', t', c' := true, root, Plug(c'.up, EraseClosed(c', t)), Top;
      }
    }

    method EraseStepRight(xp: VmArea, ghost c: Ctx, ghost t: Tree, ghost s: set<VmArea>, ghost q: seq<VmArea>)
      returns (done: bool, x': VmArea?, ghost c': Ctx, ghost t': Tree)
      requires Rep(Plug(c, t), s, q) && EraseInv(c, t) && ColorOf(t) == Black && c.InRight? && xp == c.area
      modifies this`root, s`rbLeft, s`rbRight, s`rbParent, s`rbColor
      ensures Rep(Plug(c', t'), s, q) && x' == RootOf(t')
      ensures done ==> c'.Top? && RedBlack(t')
      ensures !done ==> EraseInv(c', t') && Rank(c', t') < Rank(c, t) && x' == xp
    {
      hide RedBlack, Inorder, Elems, NoRedRed, Balanced, CtxNoRedRed, CtxBalanced, CtxRootBlack;
      SiblingExists(c, t);
      SiblingFacts(c, t, Snap(s));
      c', t' := c, t;
      var w := xp.rbLeft;
      if w.rbColor == Red {
        EraseRedSiblingInv(c, t);
        EraseRotateRedRight(xp, w, c, t, s, q);
        c' := EraseRedSibling(c);
        SiblingFacts(c', t, Snap(s));
        w := xp.rbLeft;
      }
      if (w.rbRight == null || w.rbRight.rbColor == Black) && (w.rbLeft == null || w.rbLeft.rbColor == Black) {
        EraseRecolorInv(c', t);
        Recolor(w, Red, InLeft(xp, c'.color, t, c'.up), c'.left, s, q);
        done, x', t', c' := false, xp, EraseRecolored(c', t), c'.up;
      } else {
        if w.rbLeft == null || w.rbLeft.rbColor == Black {
          EraseInnerInv(c', t);
          EraseRotateInnerRight(w, c', t, s, q);
          c' := EraseInnerRotated(c');
          SiblingFacts(c', t, Snap(s));
          w := xp.rbLeft;
        }
        EraseCloseInv(c', t);
        EraseCloseRight(xp, w, c', t, s, q);
        done, x', t', c' := true, root, Plug(c'.up, EraseClosed(c', t)), Top;
      }
    }

    /** `x` is the child the erased position is left with, `xp` its parent.  `xIsLeft` need only be right
        when the loop is entered, that is, when `x` is black and not the root. */
    method EraseFixup(x0: VmArea?, xp0: VmArea?, xIsLeft0: bool, ghost c0: Ctx, ghost t0: Tree,
                      ghost s: set<VmArea>, ghost q: seq<VmArea>)
      returns (ghost t': Tree)
      requires Rep(Plug(c0, t0), s, q) && EraseInv(c0, t0)
      requires x0 == RootOf(t0) && xp0 == HoleParent(c0)
      requires ColorOf(t0) == Black && !c0.Top? ==> (xIsLeft0 <==> c0.InLeft?)
      modifies this`root, s`rbLeft, s`rbRight, s`rbParent, s`rbColor
      ensures Rep(t', s, q) && RedBlack(t')
    {
      hide EraseInv, Inorder, Elems;
      var x, xp, xIsLeft, done := x0, xp0, xIsLeft0, false;
      ghost var c, t := c0, t0;
      AtRoot(c, t, Snap(s));
      while !done && x != root && (x == null || x.rbColor == Black)
        invariant Rep(Plug(c, t), s, q) && x == RootOf(t)
        invariant x != null ==> x in s && x.rbColor == ColorOf(t)
        invariant done ==> c.Top? && RedBlack(t)
        invariant !done ==> EraseInv(c, t) && xp == HoleParent(c) && (x == root <==> c.Top?)
        invariant !done && ColorOf(t) == Black && !c.Top? ==> (xIsLeft <==> c.InLeft?)
        decreases !done, Rank(c, t)
      {
        if xIsLeft {
          done, x, c, t := EraseStepLeft(xp, c, t, s, q);
        } else {
          done, x, c, t := EraseStepRight(xp, c, t, s, q);
        }
        AtRoot(c, t, Snap(s));
        if !done {
          xp := x.rbParent;
          if xp != null {
            xIsLeft := x == xp.rbLeft;
          }
        }
      }
      t' := Plug(c, Blacken(t));
      if !done { EraseDone(c, t); }
      if x != null {
        Recolor(x, Black, c, t, s, q);
      }
    }
  }
}
