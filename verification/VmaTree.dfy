/** The red-black tree of kernel/mm/vma.c seen as a value.

    `VmArea` is the C structure; `Tree` is the shape its child pointers spell out.  A position
    inside a tree is a pair of a context (`Ctx`, the tree with one hole) and the subtree in the
    hole, so an algorithm that walks up parent pointers walks up a context.  `Shape` ties a tree
    to a snapshot of the pointer fields, one `Cell` per node; every lemma here is about such
    snapshots, none reads the heap. */
module VmaTree {
  import BuddyArith

  datatype Color = Red | Black

  /** A mapped range.  `start` and `end` bound the addresses, the `rb` fields are the tree links,
      and `listNext`/`listPrev` are the embedded list node (`vma_list`). */
  class VmArea {
    const start: nat
    var end: nat
    const flags: nat
    const vn: nat
    const fileOffset: int
    var rbParent: VmArea?
    var rbLeft: VmArea?
    var rbRight: VmArea?
    var rbColor: Color
    var listNext: VmArea?
    var listPrev: VmArea?

    constructor (start: nat, end: nat, flags: nat, vn: nat, fileOffset: int)
      ensures this.start == start && this.end == end && this.flags == flags
      ensures this.vn == vn && this.fileOffset == fileOffset
      ensures rbParent == null && rbLeft == null && rbRight == null && rbColor == Red
      ensures listNext == this && listPrev == this
    {
      this.start, this.end, this.flags, this.vn, this.fileOffset := start, end, flags, vn, fileOffset;
      rbParent, rbLeft, rbRight, rbColor := null, null, null, Red;
      listNext, listPrev := this, this;
    }
  }

  datatype Tree = Leaf | Node(left: Tree, area: VmArea, color: Color, right: Tree)

  /** A tree with a hole: at the top, or the left or right child of `area`. */
  datatype Ctx = Top
    | InLeft(area: VmArea, color: Color, right: Tree, up: Ctx)
    | InRight(left: Tree, area: VmArea, color: Color, up: Ctx)

  /** The pointer fields of one node. */
  datatype Cell = Cell(parent: VmArea?, left: VmArea?, right: VmArea?, color: Color)

  type Memory = map<VmArea, Cell>

  ghost function RootOf(t: Tree): VmArea? {
    if t.Leaf? then null else t.area
  }

  ghost function ColorOf(t: Tree): Color {
    if t.Leaf? then Black else t.color
  }

  ghost function HoleParent(c: Ctx): VmArea? {
    if c.Top? then null else c.area
  }

  ghost function Plug(c: Ctx, t: Tree): Tree {
    match c
    case Top => t
    case InLeft(a, k, r, up) => Plug(up, Node(t, a, k, r))
    case InRight(l, a, k, up) => Plug(up, Node(l, a, k, t))
  }

  lemma {:induction false} RootPlug(c: Ctx, t: Tree, t': Tree)
    requires !c.Top?
    ensures RootOf(Plug(c, t)) == RootOf(Plug(c, t')) != null
    decreases c
  {
    match c
    case InLeft(a, k, r, up) => if !up.Top? { RootPlug(up, Node(t, a, k, r), Node(t', a, k, r)); }
    case InRight(l, a, k, up) => if !up.Top? { RootPlug(up, Node(l, a, k, t), Node(l, a, k, t')); }
  }

  /** Nests `c` inside the hole of `d`. */
  ghost function Compose(d: Ctx, c: Ctx): Ctx {
    match c
    case Top => d
    case InLeft(a, k, r, up) => InLeft(a, k, r, Compose(d, up))
    case InRight(l, a, k, up) => InRight(l, a, k, Compose(d, up))
  }

  lemma {:induction false} PlugCompose(d: Ctx, c: Ctx, t: Tree)
    ensures Plug(Compose(d, c), t) == Plug(d, Plug(c, t))
    decreases c
  {
    match c
    case Top =>
    case InLeft(a, k, r, up) => PlugCompose(d, up, Node(t, a, k, r));
    case InRight(l, a, k, up) => PlugCompose(d, up, Node(l, a, k, t));
  }

  // ----- in-order sequence -----

  ghost function Inorder(t: Tree): seq<VmArea> {
    if t.Leaf? then [] else Inorder(t.left) + [t.area] + Inorder(t.right)
  }

  ghost function Before(c: Ctx): seq<VmArea> {
    match c
    case Top => []
    case InLeft(_, _, _, up) => Before(up)
    case InRight(l, a, _, up) => Before(up) + (Inorder(l) + [a])
  }

  ghost function After(c: Ctx): seq<VmArea> {
    match c
    case Top => []
    case InLeft(a, _, r, up) => [a] + Inorder(r) + After(up)
    case InRight(_, _, _, up) => After(up)
  }

  /** The in-order sequence of a plugged tree: what is left of the hole, the hole, what is right of it. */
  lemma {:induction false} InorderPlug(c: Ctx, t: Tree)
    ensures Inorder(Plug(c, t)) == Before(c) + Inorder(t) + After(c)
    decreases c
  {
    match c
    case Top =>
    case InLeft(a, k, r, up) =>
      InorderPlug(up, Node(t, a, k, r));
      assert Inorder(Node(t, a, k, r)) == Inorder(t) + [a] + Inorder(r) == Inorder(t) + ([a] + Inorder(r));
      Reassociate(Before(up), Inorder(t), [a] + Inorder(r), After(up));
      hide Inorder;
    case InRight(l, a, k, up) =>
      InorderPlug(up, Node(l, a, k, t));
      Reassociate(Before(up), Inorder(l) + [a], Inorder(t), After(up));
  }

  lemma {:induction false} Reassociate(a: seq<VmArea>, b: seq<VmArea>, c: seq<VmArea>, d: seq<VmArea>)
    ensures a + (b + c) + d == (a + b) + c + d == a + b + (c + d)
  {
  }

  // ----- node sets and distinctness -----

  ghost function Elems(t: Tree): set<VmArea> {
    if t.Leaf? then {} else Elems(t.left) + {t.area} + Elems(t.right)
  }

  ghost function CtxElems(c: Ctx): set<VmArea> {
    match c
    case Top => {}
    case InLeft(a, _, r, up) => {a} + Elems(r) + CtxElems(up)
    case InRight(l, a, _, up) => {a} + Elems(l) + CtxElems(up)
  }

  /** No node occurs twice. */
  ghost predicate Distinct(t: Tree) {
    t.Node? ==>
      && Distinct(t.left) && Distinct(t.right)
      && t.area !in Elems(t.left) && t.area !in Elems(t.right)
      && Elems(t.left) !! Elems(t.right)
  }

  ghost predicate CtxDistinct(c: Ctx) {
    match c
    case Top => true
    case InLeft(a, _, r, up) =>
      CtxDistinct(up) && Distinct(r) && a !in Elems(r) && a !in CtxElems(up) && Elems(r) !! CtxElems(up)
    case InRight(l, a, _, up) =>
      CtxDistinct(up) && Distinct(l) && a !in Elems(l) && a !in CtxElems(up) && Elems(l) !! CtxElems(up)
  }

  lemma {:induction false} ElemsPlug(c: Ctx, t: Tree)
    ensures Elems(Plug(c, t)) == CtxElems(c) + Elems(t)
    decreases c
  {
    match c
    case Top =>
    case InLeft(a, k, r, up) => ElemsPlug(up, Node(t, a, k, r));
    case InRight(l, a, k, up) => ElemsPlug(up, Node(l, a, k, t));
  }

  lemma {:induction false} DistinctPlug(c: Ctx, t: Tree)
    ensures Distinct(Plug(c, t)) <==> Distinct(t) && CtxDistinct(c) && CtxElems(c) !! Elems(t)
    decreases c
  {
    match c
    case Top =>
    case InLeft(a, k, r, up) => DistinctPlug(up, Node(t, a, k, r));
    case InRight(l, a, k, up) => DistinctPlug(up, Node(l, a, k, t));
  }

  /** In-order sequences list exactly the nodes. */
  lemma {:induction false} InorderElems(t: Tree, a: VmArea)
    ensures a in Inorder(t) <==> a in Elems(t)
  {
    if t.Node? {
      InorderElems(t.left, a);
      InorderElems(t.right, a);
    }
  }

  ghost predicate NoDup(s: seq<VmArea>) {
    forall i, j :: 0 <= i < j < |s| ==> s[i] != s[j]
  }

  lemma {:induction false} InorderNoDup(t: Tree)
    requires Distinct(t)
    ensures NoDup(Inorder(t))
  {
    if t.Node? {
      InorderNoDup(t.left);
      InorderNoDup(t.right);
      var l, r := Inorder(t.left), Inorder(t.right);
      forall i | 0 <= i < |l| ensures l[i] in Elems(t.left) { InorderElems(t.left, l[i]); }
      forall i | 0 <= i < |r| ensures r[i] in Elems(t.right) { InorderElems(t.right, r[i]); }
    }
  }

  // ----- pointers -----

  /** The cells of `m` spell out `t`, hanging below `p`. */
  ghost predicate Shape(t: Tree, p: VmArea?, m: Memory) {
    t.Node? ==>
      && t.area in m
      && m[t.area] == Cell(p, RootOf(t.left), RootOf(t.right), t.color)
      && Shape(t.left, t.area, m)
      && Shape(t.right, t.area, m)
  }

  /** The cells of `m` spell out `c`, with `h` in the hole. */
  ghost predicate CtxShape(c: Ctx, h: VmArea?, m: Memory) {
    match c
    case Top => true
    case InLeft(a, k, r, up) =>
      a in m && m[a] == Cell(HoleParent(up), h, RootOf(r), k) && Shape(r, a, m) && CtxShape(up, a, m)
    case InRight(l, a, k, up) =>
      a in m && m[a] == Cell(HoleParent(up), RootOf(l), h, k) && Shape(l, a, m) && CtxShape(up, a, m)
  }

  lemma {:induction false} ShapePlug(c: Ctx, t: Tree, m: Memory)
    ensures Shape(Plug(c, t), null, m) <==> CtxShape(c, RootOf(t), m) && Shape(t, HoleParent(c), m)
    decreases c
  {
    match c
    case Top =>
    case InLeft(a, k, r, up) => ShapePlug(up, Node(t, a, k, r), m);
    case InRight(l, a, k, up) => ShapePlug(up, Node(l, a, k, t), m);
  }

  ghost predicate AgreeOn(s: set<VmArea>, m: Memory, m': Memory) {
    forall a :: a in s ==> (a in m <==> a in m') && (a in m ==> m[a] == m'[a])
  }

  lemma {:induction false} ShapeFrame(t: Tree, p: VmArea?, m: Memory, m': Memory)
    requires Shape(t, p, m) && AgreeOn(Elems(t), m, m')
    ensures Shape(t, p, m')
    decreases t
  {
    if t.Node? {
      ShapeFrame(t.left, t.area, m, m');
      ShapeFrame(t.right, t.area, m, m');
    }
  }

  /** Only the parent pointer of the root of `t` changed. */
  lemma {:induction false} Reparent(t: Tree, p: VmArea?, p': VmArea?, m: Memory, m': Memory)
    requires Shape(t, p, m) && Distinct(t)
    requires t.Node? ==> AgreeOn(Elems(t) - {t.area}, m, m')
    requires t.Node? ==> t.area in m' && m'[t.area] == m[t.area].(parent := p')
    ensures Shape(t, p', m')
  {
    if t.Node? {
      ShapeFrame(t.left, t.area, m, m');
      ShapeFrame(t.right, t.area, m, m');
    }
  }

  lemma {:induction false} CtxShapeFrame(c: Ctx, h: VmArea?, m: Memory, m': Memory)
    requires CtxShape(c, h, m) && AgreeOn(CtxElems(c), m, m')
    ensures CtxShape(c, h, m')
    decreases c
  {
    match c
    case Top =>
    case InLeft(a, k, r, up) => ShapeFrame(r, a, m, m'); CtxShapeFrame(up, a, m, m');
    case InRight(l, a, k, up) => ShapeFrame(l, a, m, m'); CtxShapeFrame(up, a, m, m');
  }

  /** The cell a node has once its hole-side child is `h`. */
  ghost function WithChild(c: Ctx, cell: Cell, h: VmArea?): Cell
    requires !c.Top?
  {
    if c.InLeft? then cell.(left := h) else cell.(right := h)
  }

  /** Only the pointer into the hole changed, from `h` to `h'`. */
  lemma {:induction false} Rehole(c: Ctx, h: VmArea?, h': VmArea?, m: Memory, m': Memory)
    requires CtxShape(c, h, m) && CtxDistinct(c)
    requires !c.Top? ==> AgreeOn(CtxElems(c) - {c.area}, m, m')
    requires !c.Top? ==> c.area in m' && m'[c.area] == WithChild(c, m[c.area], h')
    ensures CtxShape(c, h', m')
  {
    match c
    case Top =>
    case InLeft(a, k, r, up) => ShapeFrame(r, a, m, m'); CtxShapeFrame(up, a, m, m');
    case InRight(l, a, k, up) => ShapeFrame(l, a, m, m'); CtxShapeFrame(up, a, m, m');
  }

  // ----- colours -----

  /** No red node has a red child. */
  ghost predicate NoRedRed(t: Tree) {
    t.Node? ==>
      && NoRedRed(t.left) && NoRedRed(t.right)
      && (t.color == Red ==> ColorOf(t.left) == Black && ColorOf(t.right) == Black)
  }

  /** Plugging a subtree whose root has colour `k` creates no red-red edge. */
  ghost predicate CtxNoRedRed(c: Ctx, k: Color) {
    match c
    case Top => true
    case InLeft(_, ck, r, up) =>
      NoRedRed(r) && (ck == Red ==> k == Black && ColorOf(r) == Black) && CtxNoRedRed(up, ck)
    case InRight(l, _, ck, up) =>
      NoRedRed(l) && (ck == Red ==> k == Black && ColorOf(l) == Black) && CtxNoRedRed(up, ck)
  }

  lemma {:induction false} NoRedRedPlug(c: Ctx, t: Tree)
    ensures NoRedRed(Plug(c, t)) <==> NoRedRed(t) && CtxNoRedRed(c, ColorOf(t))
    decreases c
  {
    match c
    case Top =>
    case InLeft(a, k, r, up) => NoRedRedPlug(up, Node(t, a, k, r));
    case InRight(l, a, k, up) => NoRedRedPlug(up, Node(l, a, k, t));
  }

  ghost function Weight(k: Color): nat {
    if k == Black then 1 else 0
  }

  ghost function BlackHeight(t: Tree): nat {
    if t.Leaf? then 0 else BlackHeight(t.left) + Weight(t.color)
  }

  /** Every path to a leaf meets the same number of black nodes. */
  ghost predicate Balanced(t: Tree) {
    t.Node? ==> Balanced(t.left) && Balanced(t.right) && BlackHeight(t.left) == BlackHeight(t.right)
  }

  /** Plugging a balanced subtree of black height `h` gives a balanced tree. */
  ghost predicate CtxBalanced(c: Ctx, h: nat) {
    match c
    case Top => true
    case InLeft(_, k, r, up) => Balanced(r) && BlackHeight(r) == h && CtxBalanced(up, h + Weight(k))
    case InRight(l, _, k, up) => Balanced(l) && BlackHeight(l) == h && CtxBalanced(up, h + Weight(k))
  }

  lemma {:induction false} BalancedPlug(c: Ctx, t: Tree)
    ensures Balanced(Plug(c, t)) <==> Balanced(t) && CtxBalanced(c, BlackHeight(t))
    decreases c
  {
    match c
    case Top =>
    case InLeft(a, k, r, up) => BalancedPlug(up, Node(t, a, k, r));
    case InRight(l, a, k, up) => BalancedPlug(up, Node(l, a, k, t));
  }

  /** The topmost node of a context, if there is one, is black. */
  ghost predicate CtxRootBlack(c: Ctx) {
    c.Top? || (if c.up.Top? then c.color == Black else CtxRootBlack(c.up))
  }

  lemma {:induction false} RootBlackPlug(c: Ctx, t: Tree)
    ensures ColorOf(Plug(c, t)) == Black <==> (if c.Top? then ColorOf(t) == Black else CtxRootBlack(c))
    decreases c
  {
    match c
    case Top =>
    case InLeft(a, k, r, up) => RootBlackPlug(up, Node(t, a, k, r));
    case InRight(l, a, k, up) => RootBlackPlug(up, Node(l, a, k, t));
  }

  /** The red-black invariants. */
  ghost predicate RedBlack(t: Tree) {
    ColorOf(t) == Black && NoRedRed(t) && Balanced(t)
  }

  ghost function Height(t: Tree): nat {
    if t.Leaf? then 0
    else 1 + if Height(t.left) < Height(t.right) then Height(t.right) else Height(t.left)
  }

  lemma HeightBelow(t: Tree)
    requires t.Node?
    ensures Height(t) >= 1 + Height(t.left) && Height(t) >= 1 + Height(t.right)
  {
  }

  /** At least every other node of a path is black. */
  lemma {:induction false} HeightBlack(t: Tree)
    requires NoRedRed(t) && Balanced(t)
    ensures Height(t) <= 2 * BlackHeight(t) + if ColorOf(t) == Red then 1 else 0
  {
    if t.Node? {
      HeightBlack(t.left);
      HeightBlack(t.right);
    }
  }

  lemma {:induction false} SizeBlack(t: Tree)
    requires Balanced(t)
    ensures |Inorder(t)| + 1 >= BuddyArith.Pow2(BlackHeight(t))
  {
    if t.Node? {
      SizeBlack(t.left);
      SizeBlack(t.right);
    }
  }

  lemma {:induction false} PowTwice(n: nat)
    ensures BuddyArith.Pow2(2 * n) == BuddyArith.Pow2(n) * BuddyArith.Pow2(n)
  {
    if n > 0 {
      PowTwice(n - 1);
      assert BuddyArith.Pow2(2 * n) == 4 * BuddyArith.Pow2(2 * n - 2);
    }
  }

  lemma {:induction false} PowMonotone(m: nat, n: nat)
    requires m <= n
    ensures BuddyArith.Pow2(m) <= BuddyArith.Pow2(n)
  {
    if m < n {
      PowMonotone(m, n - 1);
    }
  }

  lemma SquareMonotone(b: nat, n: nat)
    requires b <= n
    ensures b * b <= n * n
  {
    assert b * b <= b * n <= n * n;
  }

  /** `h` is at most twice the binary logarithm of `n + 1`. */
  ghost predicate Logarithmic(h: nat, n: nat) {
    BuddyArith.Pow2(h) <= (n + 1) * (n + 1)
  }

  /** The height of a red-black tree is logarithmic in the number of its nodes. */
  lemma HeightBound(t: Tree)
    requires RedBlack(t)
    ensures Logarithmic(Height(t), |Inorder(t)|)
  {
    HeightBlack(t);
    SizeBlack(t);
    hide BuddyArith.Pow2, Height, BlackHeight, Inorder;
    PowMonotone(Height(t), 2 * BlackHeight(t));
    PowTwice(BlackHeight(t));
    SquareMonotone(BuddyArith.Pow2(BlackHeight(t)), |Inorder(t)| + 1);
  }

  ghost function Depth(c: Ctx): nat {
    if c.Top? then 0 else 1 + Depth(c.up)
  }
}
