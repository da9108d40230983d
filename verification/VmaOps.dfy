/** Searching, splitting, merging and unmapping on the VMA index (kernel/mm/vma.c). */
module VmaOps {
  import opened VmaTree
  import opened VmaIndex
  import opened VmaView
  import opened VmaSpace

  ghost function RangeOf(a: VmArea): Range
    reads a
  {
    Range(a.start, a.end, a.flags, a.vn, a.fileOffset)
  }

  /** The ranges of the areas, in list order. */
  ghost function ViewOf(q: seq<VmArea>): seq<Range>
    reads q
  {
    seq(|q|, i requires 0 <= i < |q| reads q => RangeOf(q[i]))
  }

  /** A valid index whose ranges are non-empty and do not overlap. */
  ghost predicate Proper(idx: VmaIndex)
    reads idx, idx.head, idx.nodes, idx.areas
  {
    Valid(idx) && Disjoint(ViewOf(idx.areas))
  }

  /** The areas are distinct nodes of the tree, and the sentinel is not among them. */
  lemma Members(idx: VmaIndex)
    requires Valid(idx)
    ensures NoDup(idx.areas) && idx.head !in idx.areas
    ensures forall i :: 0 <= i < |idx.areas| ==> idx.areas[i] in idx.nodes
  {
    AreasFacts(idx.tree, idx.head);
  }

  // ----- vma_find, vma_find_prev, vma_find_first -----

  /** The subtree `t` spans positions `lo` up to `hi` of the in-order sequence. */
  ghost predicate Spans(q: seq<VmArea>, lo: int, hi: int, t: Tree) {
    0 <= lo <= hi <= |q| && q[lo..hi] == Inorder(t)
  }

  /** Where a node splits the stretch its subtree spans. */
  lemma {:induction false} Descend(q: seq<VmArea>, lo: int, hi: int, t: Tree)
    requires t.Node? && Spans(q, lo, hi, t)
    ensures var k := lo + |Inorder(t.left)|;
            && 0 <= lo <= k < hi <= |q| && q[k] == t.area
            && Spans(q, lo, k, t.left) && Spans(q, k + 1, hi, t.right)
  {
    var l, r := Inorder(t.left), Inorder(t.right);
    var w := q[lo..hi];
    assert w == l + [t.area] + r;
    assert w[|l|] == t.area && w[..|l|] == l && w[|l| + 1..] == r;
    var k := lo + |l|;
    assert q[lo..k] == w[..|l|] && q[k + 1..hi] == w[|l| + 1..];
  }

  lemma {:induction false} SpansBounds(q: seq<VmArea>, lo: int, hi: int, t: Tree)
    requires Spans(q, lo, hi, t)
    ensures 0 <= lo <= hi <= |q| && (t.Leaf? ==> lo == hi)
  {
    assert |q[lo..hi]| == hi - lo;
  }

  lemma SpansAll(idx: VmaIndex)
    requires Valid(idx)
    ensures Spans(idx.areas, 0, |idx.areas|, idx.tree)
  {
  }

  lemma TreeLow(idx: VmaIndex)
    requires Valid(idx)
    ensures Logarithmic(Height(idx.tree), |idx.areas|)
  {
    HeightBound(idx.tree);
  }

  /** The area that covers `addr`, in a number of turns logarithmic in that of the areas. */
  method Find(idx: VmaIndex, addr: nat) returns (r: VmArea?, ghost k: nat, ghost turns: nat)
    requires Proper(idx)
    ensures turns <= Height(idx.tree) && Logarithmic(Height(idx.tree), |idx.areas|)
    ensures r != null ==> k < |idx.areas| && idx.areas[k] == r && Covers(ViewOf(idx.areas)[k], addr)
    ensures r == null ==> forall i :: 0 <= i < |idx.areas| ==> !Covers(ViewOf(idx.areas)[i], addr)
  {
    hide RedBlack, Linked, Distinct, Elems, Inorder, Spans;
    TreeLow(idx);
    hide Logarithmic, Height;
    ghost var q, m := idx.areas, Snap(idx.nodes);
    var v := idx.root;
    ghost var t, lo, hi, p := idx.tree, 0, |q|, null;
    ghost var top := Height(t);
    turns := 0;
    SpansAll(idx);
    ghost var view := ViewOf(q);
    while v != null
      invariant 0 <= lo <= hi <= |q| && v == RootOf(t) && Shape(t, p, m) && Spans(q, lo, hi, t)
      invariant forall i :: 0 <= i < lo ==> view[i].end <= addr
      invariant forall i :: hi <= i < |q| ==> addr < view[i].start
      invariant turns + Height(t) <= top
      decreases t
    {
      Descend(q, lo, hi, t);
      k := lo + |Inorder(t.left)|;
      assert view[k] == RangeOf(v);
      HeightBelow(t);
      if addr < v.start {
        v, t, hi, p, turns := v.rbLeft, t.left, k, v, turns + 1;
      } else if addr >= v.end {
        v, t, lo, p, turns := v.rbRight, t.right, k + 1, v, turns + 1;
      } else {
        return v, k, turns + 1;
      }
    }
    SpansBounds(q, lo, hi, t);
    return null, 0, turns;
  }

  /** The last area that starts below `addr`. */
  method FindPrev(idx: VmaIndex, addr: nat) returns (r: VmArea?, ghost k: nat)
    requires Valid(idx)
    ensures r != null ==> k < |idx.areas| && idx.areas[k] == r && r.start < addr
    ensures r != null ==> forall i :: k < i < |idx.areas| ==> addr <= idx.areas[i].start
    ensures r == null ==> forall i :: 0 <= i < |idx.areas| ==> addr <= idx.areas[i].start
  {
    hide RedBlack, Linked, Distinct, Elems, Inorder, Spans;
    ghost var q, m := idx.areas, Snap(idx.nodes);
    var v := idx.root;
    ghost var t, lo, hi, p := idx.tree, 0, |q|, null;
    SpansAll(idx);
    r, k := null, 0;
    while v != null
      invariant 0 <= lo <= hi <= |q| && v == RootOf(t) && Shape(t, p, m) && Spans(q, lo, hi, t)
      invariant forall i :: hi <= i < |q| ==> addr <= q[i].start
      invariant r == null ==> lo == 0
      invariant r != null ==> lo == k + 1 && q[k] == r && r.start < addr
      decreases t
    {
      Descend(q, lo, hi, t);
      ghost var j := lo + |Inorder(t.left)|;
      if addr > v.start {
        r, k := v, j;
        v, t, lo, p := v.rbRight, t.right, j + 1, v;
      } else {
        v, t, hi, p := v.rbLeft, t.left, j, v;
      }
    }
    SpansBounds(q, lo, hi, t);
  }

  /** The first area that ends above `addr`. */
  method FindFirst(idx: VmaIndex, addr: nat) returns (r: VmArea?, ghost k: nat)
    requires Proper(idx)
    ensures r != null ==> k < |idx.areas| && idx.areas[k] == r && addr < ViewOf(idx.areas)[k].end
    ensures r != null ==> forall i :: 0 <= i < k ==> ViewOf(idx.areas)[i].end <= addr
    ensures r == null ==> forall i :: 0 <= i < |idx.areas| ==> ViewOf(idx.areas)[i].end <= addr
  {
    hide RedBlack, Linked, Distinct, Elems, Inorder, Spans;
    ghost var q, m := idx.areas, Snap(idx.nodes);
    var v := idx.root;
    ghost var t, lo, hi, p := idx.tree, 0, |q|, null;
    SpansAll(idx);
    ghost var view := ViewOf(q);
    r, k := null, 0;
    while v != null
      invariant 0 <= lo <= hi <= |q| && v == RootOf(t) && Shape(t, p, m) && Spans(q, lo, hi, t)
      invariant forall i :: 0 <= i < lo ==> view[i].end <= addr
      invariant r == null ==> hi == |q|
      invariant r != null ==> hi == k < |q| && q[k] == r && addr < view[k].end
      decreases t
    {
      Descend(q, lo, hi, t);
      ghost var j := lo + |Inorder(t.left)|;
      assert view[j] == RangeOf(v);
      if addr < v.start {
        r, k := v, j;
        v, t, hi, p := v.rbLeft, t.left, j, v;
      } else if addr >= v.end {
        v, t, lo, p := v.rbRight, t.right, j + 1, v;
      } else {
        return v, j;
      }
    }
    SpansBounds(q, lo, hi, t);
  }

  // ----- the effect of one step on the view -----

  method SetEnd(idx: VmaIndex, vma: VmArea, end: nat, ghost k: nat)
    requires Valid(idx) && k < |idx.areas| && idx.areas[k] == vma
    modifies vma`end
    ensures Valid(idx) && ViewOf(idx.areas) == old(ViewOf(idx.areas))[k := old(RangeOf(vma)).(end := end)]
  {
    AreasFacts(idx.tree, idx.head);
    ghost var m := Snap(idx.nodes);
    vma.end := end;
    assert Snap(idx.nodes) == m;
  }

  method InsertRange(idx: VmaIndex, vma: VmArea) returns (ghost k: nat)
    requires Valid(idx) && vma !in idx.nodes && vma != idx.head
    modifies idx, vma, idx.nodes, idx.areas, idx.head
    ensures Valid(idx) && idx.nodes == old(idx.nodes) + {vma}
    ensures k <= |old(idx.areas)| && idx.areas == old(idx.areas)[..k] + [vma] + old(idx.areas)[k..]
    ensures AllBelow(old(idx.areas)[..k], vma.start) && AllAbove(old(idx.areas)[k..], vma.start)
    ensures ViewOf(idx.areas) == old(ViewOf(idx.areas))[..k] + [old(RangeOf(vma))] + old(ViewOf(idx.areas))[k..]
  {
    hide Valid;
    k := Insert(idx, vma);
  }

  method EraseRange(idx: VmaIndex, vma: VmArea, ghost k: nat)
    requires Valid(idx) && k < |idx.areas| && idx.areas[k] == vma
    modifies idx, idx.nodes, idx.areas, idx.head
    ensures Valid(idx) && idx.nodes == old(idx.nodes) - {vma}
    ensures idx.areas == old(idx.areas)[..k] + old(idx.areas)[k + 1..]
    ensures ViewOf(idx.areas) == EraseAt(old(ViewOf(idx.areas)), k)
  {
    hide Valid;
    Members(idx);
    ghost var j := Erase(idx, vma);
    assert j == k;
  }

  // ----- vma_split, vma_merge_adjacent -----

  /** `vma` keeps what is below `n.start`; `n`, a new area, gets the rest. */
  method CutAt(idx: VmaIndex, vma: VmArea, n: VmArea, ghost k: nat, ghost v: seq<Range>)
    requires Proper(idx) && k < |idx.areas| && idx.areas[k] == vma && v == ViewOf(idx.areas)
    requires n !in idx.nodes && n !in idx.areas && n != idx.head && n != vma
    requires vma.start < n.start < vma.end
    requires RangeOf(n) == RangeOf(vma).(start := n.start, offset := vma.fileOffset + (n.start - vma.start))
    modifies idx, idx.nodes, idx.areas, idx.head, n
    ensures Valid(idx) && idx.nodes == old(idx.nodes) + {n}
    ensures idx.areas == old(idx.areas)[..k + 1] + [n] + old(idx.areas)[k + 1..]
    ensures ViewOf(idx.areas) == SplitAt(v, k, n.start)
  {
    hide Valid, SplitAt, Disjoint, AllBelow, AllAbove;
    ghost var q, r := idx.areas, RangeOf(n);
    assert v[k] == RangeOf(vma);
    assert forall i :: 0 <= i < |q| ==> q[i].start == v[i].start;
    SplitIsInsert(v, k, n.start);
    SetEnd(idx, vma, n.start, k);
    assert RangeOf(n) == r;
    ghost var j := InsertRange(idx, n);
    SlotAfter(q, v, k, j, n.start);
  }

  /** `vma_split`.  `canAlloc` is the outcome of `vma_alloc`. */
  method Split(idx: VmaIndex, vma: VmArea, addr: nat, canAlloc: bool, ghost k: nat) returns (r: VmArea?)
    requires Proper(idx) && k < |idx.areas| && idx.areas[k] == vma
    modifies idx, idx.nodes, idx.areas, idx.head
    ensures Proper(idx)
    ensures !(vma.start < addr < old(vma.end)) ==> r == vma
    ensures vma.start < addr < old(vma.end) && !canAlloc ==> r == null
    ensures !(vma.start < addr < old(vma.end)) || !canAlloc ==>
      idx.areas == old(idx.areas) && idx.nodes == old(idx.nodes) && ViewOf(idx.areas) == old(ViewOf(idx.areas))
    ensures vma.start < addr < old(vma.end) && canAlloc ==>
      && r != null && fresh(r) && idx.nodes == old(idx.nodes) + {r}
      && idx.areas == old(idx.areas)[..k + 1] + [r] + old(idx.areas)[k + 1..]
      && ViewOf(idx.areas) == SplitAt(old(ViewOf(idx.areas)), k, addr)
  {
    hide Valid;
    if addr <= vma.start || addr >= vma.end {
      return vma;
    }
    if !canAlloc {
      return null;
    }
    ghost var v := ViewOf(idx.areas);
    assert v[k] == RangeOf(vma);
    SplitDisjoint(v, k, addr);
    r := new VmArea(addr, vma.end, vma.flags, vma.vn, vma.fileOffset + (addr - vma.start));
    assert ViewOf(idx.areas) == v;
    CutAt(idx, vma, r, k, v);
  }

  /** The piece cut off goes right behind the area it was cut from. */
  lemma SlotAfter(q: seq<VmArea>, v: seq<Range>, k: nat, j: nat, addr: nat)
    requires |v| == |q| && Disjoint(v) && k < |q| && v[k].start < addr < v[k].end
    requires forall i :: 0 <= i < |q| ==> q[i].start == v[i].start
    requires j <= |q| && AllBelow(q[..j], addr) && AllAbove(q[j..], addr)
    ensures j == k + 1
  {
    forall i | 0 <= i < j ensures q[i].start <= addr { assert q[..j][i] == q[i]; }
    forall i | j <= i < |q| ensures addr < q[i].start { assert q[j..][i - j] == q[i]; }
    assert k + 1 < |q| ==> v[k].end <= v[k + 1].start == q[k + 1].start;
    assert q[k].start == v[k].start;
  }

  /** The list neighbours of an area. */
  lemma Neighbours(idx: VmaIndex, vma: VmArea, k: nat)
    requires Valid(idx) && k < |idx.areas| && idx.areas[k] == vma
    ensures vma in idx.nodes && NoDup(idx.areas)
    ensures vma.listNext == (if k + 1 < |idx.areas| then idx.areas[k + 1] else idx.head)
    ensures vma.listPrev == (if k > 0 then idx.areas[k - 1] else idx.head)
    ensures k + 1 < |idx.areas| ==> idx.areas[k + 1] in idx.nodes && idx.areas[k + 1] != idx.head
    ensures k > 0 ==> idx.areas[k - 1] in idx.nodes && idx.areas[k - 1] != idx.head
  {
    AreasFacts(idx.tree, idx.head);
    assert RingAt(idx.head, idx.areas, k + 1) == vma;
    assert RingAt(idx.head, idx.areas, k + 1).listNext == RingAt(idx.head, idx.areas, k + 2);
    assert RingAt(idx.head, idx.areas, k + 1).listPrev == RingAt(idx.head, idx.areas, k);
  }

  /** The area at `k` swallows its successor: its end moves up and the successor is erased. */
  method Absorb(idx: VmaIndex, vma: VmArea, next: VmArea, ghost k: nat, ghost v: seq<Range>)
    requires Proper(idx) && k + 1 < |idx.areas| && idx.areas[k] == vma && idx.areas[k + 1] == next
    requires v == ViewOf(idx.areas) && Mergeable(v[k], v[k + 1])
    modifies idx, idx.nodes, idx.areas, idx.head
    ensures Proper(idx) && idx.nodes == old(idx.nodes) - {next}
    ensures idx.areas == old(idx.areas)[..k + 1] + old(idx.areas)[k + 2..]
    ensures ViewOf(idx.areas) == MergeAt(v, k)
  {
    hide Valid;
    MergeDisjoint(v, k);
    assert v[k] == RangeOf(vma) && v[k + 1] == RangeOf(next);
    MergeIsErase(v, k);
    SetEnd(idx, vma, next.end, k);
    EraseRange(idx, next, k + 1);
  }

  /** `vma_merge_adjacent`: with the next area first, then with the previous one. */
  ghost function Merged(v: seq<Range>, k: nat): seq<Range>
    requires k < |v|
  {
    var w := if k + 1 < |v| && Mergeable(v[k], v[k + 1]) then MergeAt(v, k) else v;
    if k > 0 && Mergeable(w[k - 1], w[k]) then MergeAt(w, k - 1) else w
  }

  /** Merging with the neighbours changes what no address maps to. */
  lemma MergedSame(v: seq<Range>, k: nat, a: nat)
    requires Disjoint(v) && k < |v|
    ensures At(Merged(v, k), a) == At(v, a)
  {
    var w := if k + 1 < |v| && Mergeable(v[k], v[k + 1]) then MergeAt(v, k) else v;
    if k + 1 < |v| && Mergeable(v[k], v[k + 1]) {
      MergeSame(v, k, a);
      MergeDisjoint(v, k);
    }
    if k > 0 && Mergeable(w[k - 1], w[k]) {
      MergeSame(w, k - 1, a);
    }
  }

  /** Which neighbours `vma_merge_adjacent` finds to continue: the second test is not misled by the first merge. */
  lemma TestsTell(v: seq<Range>, k: nat)
    requires Disjoint(v) && k < |v|
    ensures k + 1 < |v| && Mergeable(v[k], v[k + 1]) <==> Last(v, k) == k + 1
    ensures k > 0 && Mergeable(v[k - 1], v[k]) <==> First(v, k) == k - 1
    ensures k > 0 && Last(v, k) == k + 1 ==> (Mergeable(MergeAt(v, k)[k - 1], MergeAt(v, k)[k]) <==> Mergeable(v[k - 1], v[k]))
  {
    ContinuesAtEnd(v, k);
    ContinuesAtStart(v, k);
    hide Continues, Disjoint;
  }

  lemma MergedIs(v: seq<Range>, k: nat)
    requires Disjoint(v) && k < |v|
    ensures Last(v, k) == k + 1 ==> k + 1 < |v| && k < |MergeAt(v, k)|
    ensures First(v, k) == k - 1 ==> k > 0
    ensures Merged(v, k) == if Last(v, k) == k + 1 then (if First(v, k) == k - 1 then MergeAt(MergeAt(v, k), k - 1) else MergeAt(v, k))
                            else if First(v, k) == k - 1 then MergeAt(v, k - 1) else v
  {
    TestsTell(v, k);
    assert k + 1 < |v| ==> |MergeAt(v, k)| == |v| - 1;
    hide First, Last, Disjoint, MergeAt, Mergeable;
  }

  lemma MergedGrown(v: seq<Range>, k: nat)
    requires Disjoint(v) && k < |v|
    ensures Grown(v, Merged(v, k), k)
  {
    MergedIs(v, k);
    TestsTell(v, k);
    hide Merged, Disjoint, Continues;
    if Last(v, k) == k + 1 && First(v, k) == k - 1 {
      MergeTwice(v, k - 1);
      hide MergeAt;
    } else if Last(v, k) == k && First(v, k) == k {
      assert v == v[..k] + [v[k]] + v[k + 1..];
    }
  }

  /** The areas that remain: of two that are joined, the lower. */
  ghost function Remaining(q: seq<VmArea>, v: seq<Range>, k: nat): seq<VmArea>
    requires |q| == |v| && k < |v|
  {
    q[..First(v, k) + 1] + q[Last(v, k) + 1..]
  }

  lemma RemainingIs(q: seq<VmArea>, p: seq<VmArea>, r: seq<VmArea>, v: seq<Range>, k: nat)
    requires |q| == |v| && k < |p| && k < |v|
    requires p == if Last(v, k) == k + 1 then q[..k + 1] + q[k + 2..] else q
    requires r == if First(v, k) == k - 1 then p[..k] + p[k + 1..] else p
    ensures r == Remaining(q, v, k)
  {
    hide Continues;
    if Last(v, k) == k + 1 {
      assert p[..k] == q[..k] && p[k + 1..] == q[k + 2..];
    }
  }

  method MergeNext(idx: VmaIndex, vma: VmArea, ghost k: nat, ghost v: seq<Range>)
    requires Proper(idx) && k < |idx.areas| && idx.areas[k] == vma && v == ViewOf(idx.areas)
    modifies idx, idx.nodes, idx.areas, idx.head
    ensures Proper(idx) && k < |idx.areas| && idx.areas[k] == vma
    ensures ViewOf(idx.areas) == if k + 1 < |v| && Mergeable(v[k], v[k + 1]) then MergeAt(v, k) else v
    ensures idx.areas == if k + 1 < |v| && Mergeable(v[k], v[k + 1]) then old(idx.areas)[..k + 1] + old(idx.areas)[k + 2..] else old(idx.areas)
    ensures idx.nodes <= old(idx.nodes) && forall i :: 0 <= i < |idx.areas| ==> idx.areas[i] in old(idx.areas)
  {
    hide Valid;
    Neighbours(idx, vma, k);
    if vma.listNext != idx.head {
      var next := vma.listNext;
      assert v[k] == RangeOf(vma) && v[k + 1] == RangeOf(next);
      if vma.end == next.start && vma.flags == next.flags && vma.vn == next.vn
         && vma.fileOffset + (vma.end - vma.start) == next.fileOffset {
        Absorb(idx, vma, next, k, v);
      }
    }
  }

  method MergePrev(idx: VmaIndex, vma: VmArea, ghost k: nat, ghost v: seq<Range>)
    requires Proper(idx) && k < |idx.areas| && idx.areas[k] == vma && v == ViewOf(idx.areas)
    modifies idx, idx.nodes, idx.areas, idx.head
    ensures Proper(idx)
    ensures ViewOf(idx.areas) == if k > 0 && Mergeable(v[k - 1], v[k]) then MergeAt(v, k - 1) else v
    ensures idx.areas == if k > 0 && Mergeable(v[k - 1], v[k]) then old(idx.areas)[..k] + old(idx.areas)[k + 1..] else old(idx.areas)
  {
    hide Valid;
    Neighbours(idx, vma, k);
    if vma.listPrev != idx.head {
      var prev := vma.listPrev;
      assert v[k - 1] == RangeOf(prev) && v[k] == RangeOf(vma);
      if prev.end == vma.start && prev.flags == vma.flags && prev.vn == vma.vn
         && prev.fileOffset + (prev.end - prev.start) == vma.fileOffset {
        Absorb(idx, prev, vma, k - 1, v);
      }
    }
  }

  method MergeAdjacent(idx: VmaIndex, vma: VmArea, ghost k: nat)
    requires Proper(idx) && k < |idx.areas| && idx.areas[k] == vma
    modifies idx, idx.nodes, idx.areas, idx.head
    ensures Proper(idx) && Grown(old(ViewOf(idx.areas)), ViewOf(idx.areas), k)
    ensures idx.areas == Remaining(old(idx.areas), old(ViewOf(idx.areas)), k)
    ensures forall a: nat :: At(ViewOf(idx.areas), a) == At(old(ViewOf(idx.areas)), a)
  {
    hide Valid;
    ghost var v, q := ViewOf(idx.areas), idx.areas;
    forall a: nat ensures At(Merged(v, k), a) == At(v, a) { MergedSame(v, k, a); }
    MergedGrown(v, k);
    MergeNext(idx, vma, k, v);
    ghost var p := idx.areas;
    MergePrev(idx, vma, k, ViewOf(idx.areas));
    assert ViewOf(idx.areas) == Merged(v, k);
    TestsTell(v, k);
    hide Disjoint, Merged, Grown, First, Last, MergeAt;
    RemainingIs(q, p, idx.areas, v, k);
  }

  // ----- vma_remove_range -----

  /** How a turn of the loop ends: nothing is left to unmap, a split failed and the loop is left, a range is
      erased, or a split failed and the loop goes on. */
  datatype Turn = Finished | Stopped | Erased | Retry

  /** `right` begins at `start`: its part from `end` is erased if it reaches further, else all of it. */
  method RemoveRight(idx: VmaIndex, right: VmArea, end: nat, canAlloc: bool, ghost k: nat, ghost v: seq<Range>) returns (erased: bool)
    requires Proper(idx) && k < |idx.areas| && idx.areas[k] == right && v == ViewOf(idx.areas)
    modifies idx, idx.nodes, idx.areas, idx.head
    ensures Valid(idx) && fresh(idx.nodes - old(idx.nodes))
    ensures erased <==> canAlloc || !(v[k].start < end < v[k].end)
    ensures ViewOf(idx.areas) == if !erased then v
                                 else if v[k].start < end < v[k].end then EraseAt(SplitAt(v, k, end), k + 1) else EraseAt(v, k)
  {
    hide Valid;
    assert v[k] == RangeOf(right);
    if right.end > end {
      var tail := Split(idx, right, end, canAlloc, k);
      if tail == null {
        return false;
      }
      Members(idx);
      EraseRange(idx, tail, if v[k].start < end then k + 1 else k);
    } else {
      EraseRange(idx, right, k);
    }
    return true;
  }

  /** `vma` begins below `start`: its part from `start` is split off, and of that the part from `end` if
      it reaches further; the topmost piece is erased. */
  method RemoveAcross(idx: VmaIndex, vma: VmArea, start: nat, end: nat, first: bool, second: bool, ghost k: nat, ghost v: seq<Range>)
    returns (erased: bool)
    requires Proper(idx) && k < |idx.areas| && idx.areas[k] == vma && v == ViewOf(idx.areas)
    requires v[k].start < start < v[k].end
    modifies idx, idx.nodes, idx.areas, idx.head
    ensures Valid(idx) && fresh(idx.nodes - old(idx.nodes))
    ensures erased <==> first && (start < end < v[k].end ==> second)
    ensures ViewOf(idx.areas) == if !first then v
                                 else if !erased then SplitAt(v, k, start)
                                 else if start < end < v[k].end then EraseAt(SplitAt(SplitAt(v, k, start), k + 1, end), k + 2)
                                 else EraseAt(SplitAt(v, k, start), k + 1)
  {
    hide Valid;
    assert v[k] == RangeOf(vma);
    var right := Split(idx, vma, start, first, k);
    if right == null {
      return false;
    }
    assert ViewOf(idx.areas)[k + 1] == RangeOf(right);
    Members(idx);
    erased := RemoveRight(idx, right, end, second, k + 1, ViewOf(idx.areas));
  }

  /** `vma` begins inside the stretch and reaches beyond it. */
  method RemoveHead(idx: VmaIndex, vma: VmArea, end: nat, canAlloc: bool, ghost k: nat, ghost v: seq<Range>) returns (erased: bool)
    requires Proper(idx) && k < |idx.areas| && idx.areas[k] == vma && v == ViewOf(idx.areas)
    requires v[k].start < end < v[k].end
    modifies idx, idx.nodes, idx.areas, idx.head
    ensures Valid(idx) && fresh(idx.nodes - old(idx.nodes)) && erased == canAlloc
    ensures ViewOf(idx.areas) == if erased then EraseAt(SplitAt(v, k, end), k) else v
  {
    hide Valid;
    assert v[k] == RangeOf(vma);
    var right := Split(idx, vma, end, canAlloc, k);
    if right == null {
      return false;
    }
    EraseRange(idx, vma, k);
    return true;
  }

  /** One turn of the loop on the range that is next.  What it erases is `[x0, x1)`. */
  method RemoveOne(idx: VmaIndex, vma: VmArea, start: nat, end: nat, first: bool, second: bool, ghost k: nat, ghost v: seq<Range>)
    returns (turn: Turn, ghost x0: nat, ghost x1: nat)
    requires Proper(idx) && k < |idx.areas| && idx.areas[k] == vma && v == ViewOf(idx.areas)
    requires start < v[k].end && v[k].start < end
    modifies idx, idx.nodes, idx.areas, idx.head
    ensures Proper(idx) && fresh(idx.nodes - old(idx.nodes))
    ensures turn == if Granted(v[k], start, end, first, second) then Erased else if v[k].start < start then Stopped else Retry
    ensures turn == Erased ==>
      && Erases(v, ViewOf(idx.areas), x0, x1) && start <= x0 < x1 && (x0 <= start || x0 <= end)
      && (x1 <= if Straddles(v[k], start, end) then v[k].end else end)
      && (Straddles(v[k], start, end) ==> x1 == v[k].end)
      && MappedFrom(ViewOf(idx.areas), start) < MappedFrom(v, start)
    ensures turn == Stopped ==> SameBacking(v, ViewOf(idx.areas))
    ensures turn == Retry ==> ViewOf(idx.areas) == v
  {
    hide Valid;
    assert v[k] == RangeOf(vma);
    x0, x1 := 0, 0;
    if vma.start < start {
      if start < end < vma.end {
        ErasesAbove(v, k, start, end);
        x0, x1 := end, vma.end;
      } else {
        ErasesTail(v, k, start, start);
        x0, x1 := start, vma.end;
      }
      SplitOnly(v, k, start);
      var erased := RemoveAcross(idx, vma, start, end, first, second, k, v);
      turn := if erased then Erased else Stopped;
    } else if vma.end > end {
      ErasesHead(v, k, end, start);
      x0, x1 := vma.start, end;
      var erased := RemoveHead(idx, vma, end, first, k, v);
      turn := if erased then Erased else Retry;
    } else {
      ErasesWhole(v, k, start);
      x0, x1 := vma.start, vma.end;
      EraseRange(idx, vma, k);
      turn := Erased;
    }
  }

  lemma SplitOnly(v: seq<Range>, k: nat, addr: nat)
    requires Disjoint(v) && k < |v| && v[k].start < addr < v[k].end
    ensures Disjoint(SplitAt(v, k, addr)) && SameBacking(v, SplitAt(v, k, addr))
  {
    SplitDisjoint(v, k, addr);
    forall a: nat ensures At(SplitAt(v, k, addr), a) == At(v, a) { SplitSame(v, k, addr, a); }
  }

  /** The turn makes progress exactly when the allocations it needs are granted; if not, the loop is left if the range
      began below `start`, and repeats otherwise. */
  ghost predicate TurnIs(v: seq<Range>, start: nat, end: nat, first: bool, second: bool, turn: Turn) {
    && (turn == Finished <==> forall k: nat :: !Next(v, start, end, k))
    && forall k: nat :: Next(v, start, end, k) ==>
      turn == if Granted(v[k], start, end, first, second) then Erased else if v[k].start < start then Stopped else Retry
  }

  /** With its allocations granted, a turn erases a range or ends the loop. */
  lemma GrantedTurn(v: seq<Range>, start: nat, end: nat, turn: Turn)
    requires TurnIs(v, start, end, true, true, turn)
    ensures turn == Finished || turn == Erased
  {
  }

  /** The next range begins inside the stretch and reaches beyond it. */
  ghost predicate HeadStuck(v: seq<Range>, start: nat, end: nat) {
    exists k: nat :: Next(v, start, end, k) && start <= v[k].start && end < v[k].end
  }

  lemma StuckTurn(v: seq<Range>, start: nat, end: nat, second: bool, turn: Turn)
    requires HeadStuck(v, start, end) && TurnIs(v, start, end, false, second, turn)
    ensures turn == Retry
  {
    var k: nat :| Next(v, start, end, k) && start <= v[k].start && end < v[k].end;
  }

  /** One turn of the loop, with the outcomes of its allocations.  Unless it erases a range, no address changes. */
  method RemoveTurn(idx: VmaIndex, start: nat, end: nat, first: bool, second: bool, ghost v0: seq<Range>, ghost v: seq<Range>)
    returns (turn: Turn)
    requires Proper(idx) && v == ViewOf(idx.areas) && RemoveInv(v0, v, start, end)
    modifies idx, idx.nodes, idx.areas, idx.head
    ensures Proper(idx) && fresh(idx.nodes - old(idx.nodes))
    ensures TurnIs(v, start, end, first, second, turn)
    ensures turn == Finished ==> Unmaps(v0, ViewOf(idx.areas), start, HoleEnd(v0, start, end))
    ensures turn == Stopped ==> SameBacking(v, ViewOf(idx.areas))
    ensures turn == Erased ==> RemoveInv(v0, ViewOf(idx.areas), start, end) && MappedFrom(ViewOf(idx.areas), start) < MappedFrom(v, start)
    ensures turn == Retry ==> ViewOf(idx.areas) == v
  {
    hide Valid, RemoveInv, Next, Unmaps, MappedFrom, HoleEnd, HasStraddler, Straddles, SameBacking, Erases;
    var vma;
    ghost var k;
    vma, k := FindFirst(idx, start);
    assert ViewOf(idx.areas) == v;
    if vma == null || vma.start >= end {
      NoneNext(v0, v, start, end, if vma == null then |v| else k);
      return Finished;
    }
    assert v[k] == RangeOf(vma);
    OneNext(v, start, end, k);
    hide Disjoint;
    ghost var x0, x1;
    turn, x0, x1 := RemoveOne(idx, vma, start, end, first, second, k, v);
    if turn == Erased {
      ErasedNext(v0, v, ViewOf(idx.areas), start, end, k, x0, x1);
    }
  }

  lemma NoneNext(v0: seq<Range>, v: seq<Range>, start: nat, end: nat, k: nat)
    requires RemoveInv(v0, v, start, end) && k <= |v| && forall i :: 0 <= i < k ==> v[i].end <= start
    requires k < |v| ==> end <= v[k].start
    ensures Unmaps(v0, v, start, HoleEnd(v0, start, end)) && forall j: nat :: !Next(v, start, end, j)
  {
    RemoveDone(v0, v, start, end, k);
    hide HoleEnd, HasStraddler, Unmaps;
  }

  lemma OneNext(v: seq<Range>, start: nat, end: nat, k: nat)
    requires k < |v| && start < v[k].end && v[k].start < end && forall i :: 0 <= i < k ==> v[i].end <= start
    ensures Next(v, start, end, k) && forall j: nat :: Next(v, start, end, j) ==> j == k
  {
  }

  lemma ErasedNext(v0: seq<Range>, v: seq<Range>, w: seq<Range>, start: nat, end: nat, k: nat, x0: nat, x1: nat)
    requires RemoveInv(v0, v, start, end) && Next(v, start, end, k)
    requires Erases(v, w, x0, x1) && start <= x0 < x1 && (x0 <= start || x0 <= end)
    requires x1 <= if Straddles(v[k], start, end) then v[k].end else end
    requires Straddles(v[k], start, end) ==> x1 == v[k].end
    ensures RemoveInv(v0, w, start, end)
  {
    if HasStraddler(v, start, end) { StraddlerFirst(v, start, end, k); }
    if Straddles(v[k], start, end) { StraddlerUnique(v, start, end, k); }
    RemoveStep(v0, v, w, start, end, x0, x1);
  }

  /** The first `|mem|` turns of `vma_remove_range`, or fewer if the loop is left; `mem` says which allocations of each
      turn are granted. */
  method RemoveRange(idx: VmaIndex, start: nat, end: nat, mem: seq<(bool, bool)>) returns (turn: Turn)
    requires Proper(idx)
    modifies idx, idx.nodes, idx.areas, idx.head
    ensures Proper(idx)
    ensures var v0 := old(ViewOf(idx.areas)); UnmapsPart(v0, ViewOf(idx.areas), start, HoleEnd(v0, start, end))
    ensures var v0 := old(ViewOf(idx.areas)); turn == Finished ==> Unmaps(v0, ViewOf(idx.areas), start, HoleEnd(v0, start, end))
    ensures (forall i :: 0 <= i < |mem| ==> mem[i] == (true, true)) && |mem| > MappedFrom(old(ViewOf(idx.areas)), start) ==> turn == Finished
    ensures var v0 := old(ViewOf(idx.areas));
            (forall i :: 0 <= i < |mem| ==> !mem[i].0) && mem != [] && HeadStuck(v0, start, end) ==>
              turn == Retry && ViewOf(idx.areas) == v0
  {
    hide Valid, TurnIs, HeadStuck;
    ghost var v0 := ViewOf(idx.areas);
    ghost var granted := forall i :: 0 <= i < |mem| ==> mem[i] == (true, true);
    ghost var stuck := HeadStuck(v0, start, end) && forall i :: 0 <= i < |mem| ==> !mem[i].0;
    PartAfter(v0, v0, v0, start, end, Retry);
    hide RemoveInv, UnmapsPart, Unmaps, SameBacking, MappedFrom, Disjoint;
    turn := Erased;
    var i := 0;
    while i < |mem| && (turn == Erased || turn == Retry)
      invariant Proper(idx) && i <= |mem| && UnmapsPart(v0, ViewOf(idx.areas), start, HoleEnd(v0, start, end))
      invariant turn == Erased || turn == Retry ==> RemoveInv(v0, ViewOf(idx.areas), start, end)
      invariant fresh(idx.nodes - old(idx.nodes))
      invariant turn == Finished ==> Unmaps(v0, ViewOf(idx.areas), start, HoleEnd(v0, start, end))
      invariant granted ==> turn == Finished || (turn == Erased && i + MappedFrom(ViewOf(idx.areas), start) <= MappedFrom(v0, start))
      invariant stuck ==> ViewOf(idx.areas) == v0 && turn == if i == 0 then Erased else Retry
      decreases |mem| - i
    {
      Members(idx);
      ghost var v := ViewOf(idx.areas);
      turn := RemoveTurn(idx, start, end, mem[i].0, mem[i].1, v0, v);
      PartAfter(v0, v, ViewOf(idx.areas), start, end, turn);
      if granted { GrantedTurn(v, start, end, turn); }
      if stuck { StuckTurn(v, start, end, mem[i].1, turn); }
      i := i + 1;
    }
  }

  lemma PartAfter(v0: seq<Range>, v: seq<Range>, w: seq<Range>, start: nat, end: nat, turn: Turn)
    requires Disjoint(v0) && (v == v0 || RemoveInv(v0, v, start, end))
    requires match turn
             case Finished => Unmaps(v0, w, start, HoleEnd(v0, start, end))
             case Stopped => SameBacking(v, w)
             case Erased => RemoveInv(v0, w, start, end)
             case Retry => w == v
    ensures UnmapsPart(v0, w, start, HoleEnd(v0, start, end))
    ensures v == v0 ==> RemoveInv(v0, v, start, end)
  {
  }

  /** `vma_init` of an empty address space. */
  lemma NoAreas(idx: VmaIndex)
    requires idx.root == null && idx.tree == Leaf && idx.nodes == {} && idx.areas == []
    requires idx.head.listNext == idx.head && idx.head.listPrev == idx.head
    ensures Valid(idx)
  {
  }

  lemma OneRange(idx: VmaIndex, r: Range)
    requires Valid(idx) && |idx.areas| == 1 && RangeOf(idx.areas[0]) == r && r.start < r.end
    ensures Proper(idx) && ViewOf(idx.areas) == [r] && MappedFrom([r], r.start + 1) < r.end - r.start
  {
    assert ViewOf(idx.areas) == [r];
    assert [r][1..] == [];
  }

  /** An address space with one area, from 0 to 3. */
  method OneArea() returns (idx: VmaIndex)
    ensures Proper(idx) && ViewOf(idx.areas) == [Range(0, 3, 1, 0, 0)] && MappedFrom(ViewOf(idx.areas), 1) < 3
    ensures fresh(idx) && fresh(idx.nodes) && fresh(idx.head) && |idx.areas| == 1 && fresh(idx.areas[0])
  {
    var head := new VmArea(0, 0, 0, 0, 0);
    var area := new VmArea(0, 3, 1, 0, 0);
    idx := new VmaIndex(head);
    NoAreas(idx);
    hide Valid;
    ghost var k := Insert(idx, area);
    assert idx.areas == [area];
    OneRange(idx, Range(0, 3, 1, 0, 0));
  }

  /** Removing the addresses from 1 to 2 of that area unmaps address 2 as well. */
  method RemoveLosesTail() returns (idx: VmaIndex, ghost before: seq<Range>, turn: Turn)
    ensures turn == Finished && before == [Range(0, 3, 1, 0, 0)] && At(before, 2) != Unmapped
    ensures fresh(idx) && At(ViewOf(idx.areas), 2) == Unmapped
  {
    hide Valid, Unmaps, UnmapsPart, MappedFrom, HoleEnd, HeadStuck, Disjoint;
    idx := OneArea();
    before := ViewOf(idx.areas);
    turn := RemoveRange(idx, 1, 2, [(true, true), (true, true), (true, true)]);
    hide ViewOf;
    TailLost(ViewOf(idx.areas));
  }
}
