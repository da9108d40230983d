/** The rebalancing cases of kernel/mm/vma.c on tree values: what each recolouring or rotation does
    to the red-black invariants, with the hole of the context at the node the code calls `z` (insert)
    or `x` (erase). */
module VmaBalance {
  import opened VmaTree

  /** One level of `Plug`. */
  ghost function Fill(c: Ctx, t: Tree): Tree
    requires !c.Top?
  {
    if c.InLeft? then Node(t, c.area, c.color, c.right) else Node(c.left, c.area, c.color, t)
  }

  ghost function Blacken(t: Tree): Tree {
    if t.Leaf? then t else t.(color := Black)
  }

  ghost function Redden(t: Tree): Tree {
    if t.Leaf? then t else t.(color := Red)
  }

  ghost function RotatedLeft(t: Tree): Tree
    requires t.Node? && t.right.Node?
  {
    Node(Node(t.left, t.area, t.color, t.right.left), t.right.area, t.right.color, t.right.right)
  }

  ghost function RotatedRight(t: Tree): Tree
    requires t.Node? && t.left.Node?
  {
    Node(t.left.left, t.left.area, t.left.color, Node(t.left.right, t.area, t.color, t.right))
  }

  /** A change inside the hole that keeps the nodes and their order. */
  lemma {:induction false} SwapHole(c: Ctx, t: Tree, t': Tree)
    requires Distinct(Plug(c, t)) && Distinct(t') && Elems(t') == Elems(t) && Inorder(t') == Inorder(t)
    ensures Distinct(Plug(c, t')) && Elems(Plug(c, t')) == Elems(Plug(c, t))
    ensures Inorder(Plug(c, t')) == Inorder(Plug(c, t))
    ensures RootOf(Plug(c, t')) == if c.Top? then RootOf(t') else RootOf(Plug(c, t))
  {
    DistinctPlug(c, t);
    DistinctPlug(c, t');
    ElemsPlug(c, t);
    ElemsPlug(c, t');
    InorderPlug(c, t);
    InorderPlug(c, t');
    if !c.Top? { RootPlug(c, t, t'); }
  }

  /** A tree that satisfies the red-black invariants once its hole is filled. */
  lemma {:induction false} RedBlackPlug(c: Ctx, t: Tree)
    requires NoRedRed(t) && Balanced(t) && CtxBalanced(c, BlackHeight(t)) && CtxNoRedRed(c, ColorOf(t))
    requires CtxRootBlack(c) && (c.Top? ==> ColorOf(t) == Black)
    ensures RedBlack(Plug(c, t))
  {
    NoRedRedPlug(c, t);
    BalancedPlug(c, t);
    RootBlackPlug(c, t);
  }

  lemma {:induction false} CtxNoRedRedBlack(c: Ctx, k: Color)
    requires CtxNoRedRed(c, k)
    ensures CtxNoRedRed(c, Black)
  {
  }

  // ----- insertion -----

  /** The loop invariant of `rb_insert_fixup`: the only fault is a red `z` below a red parent, or at
      the root. */
  ghost predicate InsertInv(c: Ctx, t: Tree) {
    && t.Node? && t.color == Red
    && NoRedRed(t) && Balanced(t)
    && CtxBalanced(c, BlackHeight(t))
    && CtxNoRedRed(c, Black)
    && CtxRootBlack(c)
  }

  /** A red parent is not the root, and its own parent is black. */
  lemma {:induction false} InsertGrandparent(c: Ctx, t: Tree)
    requires InsertInv(c, t) && !c.Top? && c.color == Red
    ensures !c.up.Top? && c.up.color == Black
  {
    assert CtxNoRedRed(c.up, Red);
  }

  ghost function UncleOf(c: Ctx): Tree
    requires !c.Top? && !c.up.Top?
  {
    if c.up.InLeft? then c.up.right else c.up.left
  }

  /** Parent and uncle black, grandparent red: the grandparent is the new `z`. */
  ghost function InsertRecolored(c: Ctx, t: Tree): Tree
    requires !c.Top? && !c.up.Top?
  {
    if c.up.InLeft? then Node(Blacken(Fill(c, t)), c.up.area, Red, Blacken(c.up.right))
    else Node(Blacken(c.up.left), c.up.area, Red, Blacken(Fill(c, t)))
  }

  lemma {:induction false} InsertRecolorInv(c: Ctx, t: Tree)
    requires InsertInv(c, t) && !c.Top? && c.color == Red && !c.up.Top? && ColorOf(UncleOf(c)) == Red
    ensures InsertInv(c.up.up, InsertRecolored(c, t))
  {
    InsertGrandparent(c, t);
    assert CtxNoRedRed(c.up, Red) && CtxBalanced(c.up, BlackHeight(t)) && CtxRootBlack(c.up);
    assert CtxNoRedRed(c.up.up, Black) && CtxRootBlack(c.up.up);
  }

  /** A right child `z` of a left parent is rotated outwards; the old parent is the new `z`. */
  ghost function RotatedOutLeft(c: Ctx, t: Tree): (Ctx, Tree)
    requires c.InRight? && t.Node?
  {
    (InLeft(t.area, t.color, t.right, c.up), Node(c.left, c.area, c.color, t.left))
  }

  ghost function RotatedOutRight(c: Ctx, t: Tree): (Ctx, Tree)
    requires c.InLeft? && t.Node?
  {
    (InRight(t.left, t.area, t.color, c.up), Node(t.right, c.area, c.color, c.right))
  }

  lemma {:induction false} RotateOutLeftInv(c: Ctx, t: Tree)
    requires InsertInv(c, t) && c.InRight? && c.color == Red
    ensures InsertInv(RotatedOutLeft(c, t).0, RotatedOutLeft(c, t).1)
  {
  }

  lemma {:induction false} RotateOutRightInv(c: Ctx, t: Tree)
    requires InsertInv(c, t) && c.InLeft? && c.color == Red
    ensures InsertInv(RotatedOutRight(c, t).0, RotatedOutRight(c, t).1)
  {
  }

  /** The closing rotation: parent black, grandparent red below it on the far side. */
  ghost function InsertRotated(c: Ctx): Ctx
    requires (c.InLeft? && c.up.InLeft?) || (c.InRight? && c.up.InRight?)
  {
    if c.InLeft? then InLeft(c.area, Black, Node(c.right, c.up.area, Red, c.up.right), c.up.up)
    else InRight(Node(c.up.left, c.up.area, Red, c.left), c.area, Black, c.up.up)
  }

  lemma {:induction false} InsertRotateInv(c: Ctx, t: Tree)
    requires InsertInv(c, t) && !c.Top? && c.color == Red
    requires (c.InLeft? && c.up.InLeft?) || (c.InRight? && c.up.InRight?)
    requires ColorOf(UncleOf(c)) == Black
    ensures InsertInv(InsertRotated(c), t)
  {
    InsertGrandparent(c, t);
    assert CtxNoRedRed(c.up, Red) && CtxBalanced(c.up, BlackHeight(t)) && CtxRootBlack(c.up);
    assert CtxNoRedRed(c.up.up, Black) && CtxRootBlack(c.up.up);
  }

  /** The loop has ended: blackening the root gives a red-black tree. */
  lemma {:induction false} InsertDone(c: Ctx, t: Tree)
    requires InsertInv(c, t) && (!c.Top? ==> c.color == Black)
    ensures RedBlack(Blacken(Plug(c, t)))
    ensures !c.Top? ==> Blacken(Plug(c, t)) == Plug(c, t)
  {
    if !c.Top? { RedBlackPlug(c, t); }
  }

  // ----- erasure -----

  /** The loop invariant of `rb_erase_fixup`: every path through the hole is one black node short,
      and the root of the subtree in the hole is as good as black. */
  ghost predicate EraseInv(c: Ctx, t: Tree) {
    && NoRedRed(Blacken(t)) && Balanced(t)
    && CtxBalanced(c, BlackHeight(t) + 1)
    && CtxNoRedRed(c, Black)
    && CtxRootBlack(c)
  }

  ghost function Sibling(c: Ctx): Tree
    requires !c.Top?
  {
    if c.InLeft? then c.right else c.left
  }

  /** The sibling of a doubly black position is never a null pointer. */
  lemma {:induction false} SiblingExists(c: Ctx, t: Tree)
    requires EraseInv(c, t) && !c.Top?
    ensures Sibling(c).Node?
  {
  }

  /** A red sibling is rotated above the parent, which turns red. */
  ghost function EraseRedSibling(c: Ctx): Ctx
    requires !c.Top? && Sibling(c).Node?
  {
    var w := Sibling(c);
    if c.InLeft? then InLeft(c.area, Red, w.left, InLeft(w.area, Black, w.right, c.up))
    else InRight(w.right, c.area, Red, InRight(w.left, w.area, Black, c.up))
  }

  lemma {:induction false} EraseRedSiblingInv(c: Ctx, t: Tree)
    requires EraseInv(c, t) && !c.Top? && Sibling(c).Node? && Sibling(c).color == Red
    ensures c.color == Black
    ensures EraseInv(EraseRedSibling(c), t)
    ensures Sibling(EraseRedSibling(c)).Node? && Sibling(EraseRedSibling(c)).color == Black
  {
  }

  /** The invariants of a subtree hold of its children. */
  lemma {:induction false} Unfold(t: Tree)
    requires t.Node? && NoRedRed(t) && Balanced(t)
    ensures NoRedRed(t.left) && NoRedRed(t.right) && Balanced(t.left) && Balanced(t.right)
    ensures BlackHeight(t.left) == BlackHeight(t.right) == BlackHeight(t) - Weight(t.color)
  {
  }

  lemma {:induction false} Build(t: Tree)
    requires t.Node? && NoRedRed(t.left) && NoRedRed(t.right) && Balanced(t.left) && Balanced(t.right)
    requires BlackHeight(t.left) == BlackHeight(t.right)
    requires t.color == Red ==> ColorOf(t.left) == Black && ColorOf(t.right) == Black
    ensures NoRedRed(t) && Balanced(t) && BlackHeight(t) == BlackHeight(t.left) + Weight(t.color)
  {
  }

  /** Both nephews black: the sibling turns red and the shortage moves up to the parent. */
  ghost function EraseRecolored(c: Ctx, t: Tree): Tree
    requires !c.Top?
  {
    if c.InLeft? then Node(t, c.area, c.color, Redden(c.right)) else Node(Redden(c.left), c.area, c.color, t)
  }

  lemma {:induction false} EraseRecolorInv(c: Ctx, t: Tree)
    requires EraseInv(c, t) && ColorOf(t) == Black && !c.Top?
    requires Sibling(c).Node? && Sibling(c).color == Black
    requires ColorOf(Sibling(c).left) == Black && ColorOf(Sibling(c).right) == Black
    ensures EraseInv(c.up, EraseRecolored(c, t))
  {
    CtxNoRedRedBlack(c.up, c.color);
  }

  /** Only the inner nephew red: rotate it above the sibling. */
  ghost function EraseInnerRotated(c: Ctx): Ctx
    requires c.InLeft? ==> c.right.Node? && c.right.left.Node?
    requires c.InRight? ==> c.left.Node? && c.left.right.Node?
  {
    match c
    case Top => Top
    case InLeft(a, k, w, up) =>
      InLeft(a, k, Node(w.left.left, w.left.area, Black, Node(w.left.right, w.area, Red, w.right)), up)
    case InRight(w, a, k, up) =>
      InRight(Node(Node(w.left, w.area, Red, w.right.left), w.right.area, Black, w.right.right), a, k, up)
  }

  lemma {:induction false} EraseInnerInv(c: Ctx, t: Tree)
    requires EraseInv(c, t) && !c.Top? && Sibling(c).Node? && Sibling(c).color == Black
    requires c.InLeft? ==> ColorOf(c.right.left) == Red && ColorOf(c.right.right) == Black
    requires c.InRight? ==> ColorOf(c.left.right) == Red && ColorOf(c.left.left) == Black
    ensures EraseInv(EraseInnerRotated(c), t)
  {
    var w, w' := Sibling(c), Sibling(EraseInnerRotated(c));
    Unfold(w);
    Unfold(if c.InLeft? then w.left else w.right);
    Build(if c.InLeft? then w'.right else w'.left);
    Build(w');
  }

  /** The outer nephew is red: the closing rotation, after which no path is short. */
  ghost function EraseClosed(c: Ctx, t: Tree): Tree
    requires !c.Top? && Sibling(c).Node?
  {
    if c.InLeft? then Node(Node(t, c.area, Black, c.right.left), c.right.area, c.color, Blacken(c.right.right))
    else Node(Blacken(c.left.left), c.left.area, c.color, Node(c.left.right, c.area, Black, t))
  }

  lemma {:induction false} EraseCloseInv(c: Ctx, t: Tree)
    requires EraseInv(c, t) && ColorOf(t) == Black && !c.Top?
    requires Sibling(c).Node? && Sibling(c).color == Black
    requires c.InLeft? ==> ColorOf(c.right.right) == Red
    requires c.InRight? ==> ColorOf(c.left.left) == Red
    ensures RedBlack(Plug(c.up, EraseClosed(c, t)))
  {
    var w, t' := Sibling(c), EraseClosed(c, t);
    Unfold(w);
    Unfold(if c.InLeft? then w.right else w.left);
    Build(if c.InLeft? then t'.left else t'.right);
    Build(if c.InLeft? then t'.right else t'.left);
    Build(t');
    RedBlackPlug(c.up, t');
  }

  /** The loop has ended at the root or at a red node: blackening it makes up for the shortage. */
  lemma {:induction false} EraseDone(c: Ctx, t: Tree)
    requires EraseInv(c, t) && (c.Top? || ColorOf(t) == Red)
    ensures RedBlack(Plug(c, Blacken(t)))
  {
    RedBlackPlug(c, Blacken(t));
  }
}
