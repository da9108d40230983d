/** The physical page allocator of kernel/arch/x86_64/mmu.c. */
module BuddyAllocator {
  import opened BuddyArith
  import opened BuddyTiling
  import opened BuddyLists

  /** The page fields agree with the blocks at every block head other than `x` (the block in flight,
      or `NIL`); a frame outside the managed ones is never marked free.  Interior pages may hold
      stale marks. */
  ghost predicate Marked(b: Blocks, m: set<nat>, pg: seq<Page>, x: int) {
    && (forall p :: p in m ==> p < |pg|)
    && (forall h :: h in b ==> h in m)
    && (forall h :: h in b && h != x ==> pg[h].isFree == b[h].free && pg[h].order == b[h].order)
    && (forall p :: 0 <= p < |pg| && p !in m ==> !pg[p].isFree)
  }

  ghost predicate Inv(b: Blocks, m: set<nat>, lists: Lists, heads: seq<int>, pg: seq<Page>, x: int) {
    Tiled(b, m) && Coalesced(b) && ListsHold(b, lists, heads, pg) && Marked(b, m, pg, x)
  }

  // ----- effects of whole calls -----

  ghost predicate IsUsed(b: Blocks, h: nat, k: nat) {
    h in b && b[h] == Block(k, false)
  }

  /** One more allocated block, its pages no longer free, everything else as before. */
  ghost predicate Allocates(b: Blocks, b': Blocks, h: nat, k: nat) {
    && (forall g, j :: IsUsed(b', g, j) <==> IsUsed(b, g, j) || (g == h && j == k))
    && (forall p :: FreePage(b', p) <==> FreePage(b, p) && !Holds(h, k, p))
    && (forall p :: Holds(h, k, p) ==> FreePage(b, p))
  }

  ghost predicate Frees(b: Blocks, b': Blocks, h: nat, k: nat) {
    && (forall g, j :: IsUsed(b', g, j) <==> IsUsed(b, g, j) && !(g == h && j == k))
    && (forall p :: FreePage(b', p) <==> FreePage(b, p) || Holds(h, k, p))
  }

  /** What is allocated was not in use: its pages were free. */
  lemma NotUsed(b0: Blocks, b1: Blocks, m: set<nat>, h: nat, k: nat)
    requires Tiled(b0, m) && Allocates(b0, b1, h, k)
    ensures !IsUsed(b0, h, k)
  {
    if IsUsed(b0, h, k) {
      assert Holds(h, k, h) && FreePage(b0, h);
      var g: nat :| InBlock(b0, g, h) && b0[g].free;
      assert InBlock(b0, h, h);
    }
  }

  /** Allocating a block and freeing it again restores every block, free and used. */
  lemma AllocFreeRestores(b0: Blocks, b1: Blocks, b2: Blocks, m: set<nat>, h: nat, k: nat)
    requires Tiled(b0, m) && Coalesced(b0) && Tiled(b2, m) && Coalesced(b2)
    requires Allocates(b0, b1, h, k) && Frees(b1, b2, h, k)
    ensures b2 == b0
  {
    NotUsed(b0, b1, m, h, k);
    FreeBlocksCanonical(b0, b2, m, m);
    forall g ensures g in b2 <==> g in b0
             ensures g in b0 ==> g in b2 && b2[g] == b0[g]
    {
      if g in b0 { assert IsUsed(b0, g, b0[g].order) || IsFree(b0, g, b0[g].order); }
      if g in b2 { assert IsUsed(b2, g, b2[g].order) || IsFree(b2, g, b2[g].order); }
    }
  }

  // ----- effects of single moves -----

  lemma TakeEffect(b: Blocks, m: set<nat>, h: nat)
    requires Tiled(b, m) && h in b && b[h].free
    ensures Allocates(b, SetFree(b, h, false), h, b[h].order)
  {
    var b', k := SetFree(b, h, false), b[h].order;
    assert forall g, p :: InBlock(b', g, p) <==> InBlock(b, g, p);
    forall p: nat ensures FreePage(b', p) <==> FreePage(b, p) && !Holds(h, k, p) {
      if FreePage(b', p) {
        var g: nat :| InBlock(b', g, p) && b'[g].free;
        assert InBlock(b, g, p) && b[g].free;
        assert Holds(h, k, p) ==> InBlock(b, h, p);
      }
      if FreePage(b, p) && !Holds(h, k, p) {
        var g: nat :| InBlock(b, g, p) && b[g].free;
        assert InBlock(b', g, p) && b'[g].free;
      }
    }
    forall p | Holds(h, k, p) ensures FreePage(b, p) { assert InBlock(b, h, p); }
  }

  lemma ReleaseEffect(b: Blocks, m: set<nat>, h: nat)
    requires Tiled(b, m) && h in b && !b[h].free
    ensures Frees(b, SetFree(b, h, true), h, b[h].order)
  {
    var b', k := SetFree(b, h, true), b[h].order;
    assert forall g, p :: InBlock(b', g, p) <==> InBlock(b, g, p);
    forall p: nat ensures FreePage(b', p) <==> FreePage(b, p) || Holds(h, k, p) {
      if FreePage(b', p) {
        var g: nat :| InBlock(b', g, p) && b'[g].free;
        assert InBlock(b, g, p) && (g == h || b[g].free);
      }
      if FreePage(b, p) {
        var g: nat :| InBlock(b, g, p) && b[g].free;
        assert InBlock(b', g, p) && b'[g].free;
      }
      if Holds(h, k, p) {
        assert InBlock(b', h, p) && b'[h].free;
      }
    }
  }

  /** Splitting the block in flight: still allocated from `b0`, at one order less. */
  lemma SplitEffect(b0: Blocks, b: Blocks, m: set<nat>, h: nat)
    requires Tiled(b, m) && h in b && !b[h].free && b[h].order > 0 && Allocates(b0, b, h, b[h].order)
    requires forall k :: !IsUsed(b0, h, k)
    ensures Allocates(b0, SplitBlock(b, h), h, b[h].order - 1)
  {
    var k := b[h].order - 1;
    var u, b' := h + Pow2(k), SplitBlock(b, h);
    UpperHalfInside(b, m, h);
    assert Pow2(k + 1) == Pow2(k) + Pow2(k);
    forall g, j ensures IsUsed(b', g, j) <==> IsUsed(b0, g, j) || (g == h && j == k) {
      if g != h && g != u { assert IsUsed(b', g, j) <==> IsUsed(b, g, j); }
    }
    forall p ensures FreePage(b', p) <==> FreePage(b0, p) && !Holds(h, k, p) {
      SplitFree(b, m, h, p);
    }
    forall p | Holds(h, k, p) ensures FreePage(b0, p) { assert Holds(h, k + 1, p); }
  }

  lemma SplitFree(b: Blocks, m: set<nat>, h: nat, p: nat)
    requires Tiled(b, m) && h in b && !b[h].free && b[h].order > 0
    ensures var k := b[h].order - 1;
            FreePage(SplitBlock(b, h), p) <==> FreePage(b, p) || Holds(h + Pow2(k), k, p)
  {
    var k := b[h].order - 1;
    var u, b' := h + Pow2(k), SplitBlock(b, h);
    UpperHalfInside(b, m, h);
    if FreePage(b', p) {
      var g: nat :| InBlock(b', g, p) && b'[g].free;
      assert g != h;
      assert g == u || (InBlock(b, g, p) && b[g].free);
    }
    if FreePage(b, p) {
      var g: nat :| InBlock(b, g, p) && b[g].free;
      assert InBlock(b', g, p) && b'[g].free;
    }
    if Holds(u, k, p) {
      assert InBlock(b', u, p) && b'[u].free;
    }
  }

  /** A call that frees block (`h0`, `k0`) of `b0` is under way: the block in flight (`h`, `k`) has
      grown over free neighbours. */
  ghost predicate Freeing(b0: Blocks, b: Blocks, h0: nat, k0: nat, h: nat, k: nat) {
    && (forall g, j :: IsUsed(b, g, j) <==> (IsUsed(b0, g, j) && !(g == h0 && j == k0)) || (g == h && j == k))
    && (forall p :: FreePage(b, p) <==> FreePage(b0, p) && !Holds(h, k, p))
    && (forall p :: Holds(h, k, p) ==> FreePage(b0, p) || Holds(h0, k0, p))
    && (forall p :: Holds(h0, k0, p) ==> Holds(h, k, p))
    && (forall j :: !(IsUsed(b0, h, j) && !(h == h0 && j == k0)))
  }

  lemma FreeingStart(b: Blocks, m: set<nat>, h: nat)
    requires Tiled(b, m) && h in b && !b[h].free
    ensures Freeing(b, b, h, b[h].order, h, b[h].order)
  {
    forall p: nat | Holds(h, b[h].order, p) ensures !FreePage(b, p) {
      assert InBlock(b, h, p);
    }
  }

  lemma FreeingEnd(b0: Blocks, b: Blocks, m: set<nat>, h0: nat, k0: nat, h: nat, k: nat)
    requires Tiled(b, m) && IsUsed(b, h, k) && Freeing(b0, b, h0, k0, h, k)
    ensures Frees(b0, SetFree(b, h, true), h0, k0)
  {
    ReleaseEffect(b, m, h);
    var b' := SetFree(b, h, true);
    forall g, j ensures IsUsed(b', g, j) <==> IsUsed(b0, g, j) && !(g == h0 && j == k0) {
      assert IsUsed(b', g, j) <==> IsUsed(b, g, j) && g != h;
    }
  }

  /** Absorbing the free buddy: first it is taken, then the two halves become one. */
  ghost function Absorbed(b: Blocks, h: nat, k: nat): Blocks
    requires h in b && Flip(h, k) in b
  {
    var u := Flip(h, k);
    MergeBlock(SetFree(b, u, false), if u < h then u else h, k)
  }

  lemma AbsorbKeeps(b: Blocks, m: set<nat>, h: nat, k: nat)
    requires Tiled(b, m) && Coalesced(b) && k + 1 < MAX_ORDER && IsUsed(b, h, k) && IsFree(b, Flip(h, k), k)
    ensures var u, b' := Flip(h, k), Absorbed(b, h, k);
            var lo := if u < h then u else h;
            && Tiled(b', m) && Coalesced(b') && IsUsed(b', lo, k + 1)
            && (forall g, j :: IsFree(b', g, j) <==> IsFree(b, g, j) && g != u)
  {
    var u := Flip(h, k);
    Buddies(h, k);
    SetFreeTiled(b, m, u, false);
    TakeCoalesced(b, u);
    var b1, lo := SetFree(b, u, false), if u < h then u else h;
    MergeTiled(b1, m, lo, k);
    MergeCoalesced(b1, lo, k);
  }

  lemma AbsorbFree(b: Blocks, m: set<nat>, h: nat, k: nat, p: nat)
    requires Tiled(b, m) && k + 1 < MAX_ORDER && IsUsed(b, h, k) && IsFree(b, Flip(h, k), k)
    ensures FreePage(Absorbed(b, h, k), p) <==> FreePage(b, p) && !Holds(Flip(h, k), k, p)
    ensures Holds(if Flip(h, k) < h then Flip(h, k) else h, k + 1, p) <==> Holds(h, k, p) || Holds(Flip(h, k), k, p)
    ensures Holds(Flip(h, k), k, p) ==> FreePage(b, p)
  {
    var u, b' := Flip(h, k), Absorbed(b, h, k);
    Buddies(h, k);
    assert Holds(u, k, p) ==> InBlock(b, u, p);
    if FreePage(b', p) {
      var g: nat :| InBlock(b', g, p) && b'[g].free;
      assert InBlock(b, g, p) && b[g].free;
    }
    if FreePage(b, p) && !Holds(u, k, p) {
      var g: nat :| InBlock(b, g, p) && b[g].free;
      assert InBlock(b', g, p) && b'[g].free;
    }
  }

  lemma AbsorbFreeing(b0: Blocks, b: Blocks, m: set<nat>, h0: nat, k0: nat, h: nat, k: nat)
    requires Tiled(b, m) && k + 1 < MAX_ORDER && IsUsed(b, h, k) && IsFree(b, Flip(h, k), k)
    requires Freeing(b0, b, h0, k0, h, k)
    ensures Freeing(b0, Absorbed(b, h, k), h0, k0, if Flip(h, k) < h then Flip(h, k) else h, k + 1)
  {
    var u, b' := Flip(h, k), Absorbed(b, h, k);
    var lo := if u < h then u else h;
    Buddies(h, k);
    forall p: nat
      ensures FreePage(b', p) <==> FreePage(b, p) && !Holds(u, k, p)
      ensures Holds(lo, k + 1, p) <==> Holds(h, k, p) || Holds(u, k, p)
      ensures Holds(u, k, p) ==> FreePage(b, p)
    {
      AbsorbFree(b, m, h, k, p);
    }
    forall j: nat ensures !(IsUsed(b0, u, j) && !(u == h0 && j == k0)) {
      assert !IsUsed(b, u, j);
    }
    forall g: nat, j: nat ensures IsUsed(b', g, j) <==> (IsUsed(b0, g, j) && !(g == h0 && j == k0)) || (g == lo && j == k + 1) {
      assert IsUsed(b', g, j) <==> if g == lo then j == k + 1 else g != h && g != u && IsUsed(b, g, j);
      if g == h { assert forall i :: IsUsed(b, h, i) ==> i == k; }
    }
  }

  // ----- the invariant across the moves -----

  /** Only marks changed, and only at `x` or at pages that head no block. */
  ghost predicate Remarked(b: Blocks, m: set<nat>, pg: seq<Page>, pg': seq<Page>, x: nat) {
    && |pg'| == |pg|
    && (forall p :: 0 <= p < |pg| ==> pg'[p].next == pg[p].next && pg'[p].prev == pg[p].prev)
    && (forall p :: 0 <= p < |pg| && p != x ==> pg'[p] == pg[p])
    && (x in m)
  }

  lemma RemarkInv(b: Blocks, m: set<nat>, lists: Lists, heads: seq<int>, pg: seq<Page>, pg': seq<Page>, x: nat)
    requires Inv(b, m, lists, heads, pg, x) && Remarked(b, m, pg, pg', x)
    ensures Inv(b, m, lists, heads, pg', x)
  {
    hide Tiled, Coalesced, Threaded;
    RethreadMarks(b, lists, heads, pg, pg');
  }

  lemma {:induction false} InManaged(b: Blocks, m: set<nat>, h: nat)
    requires Tiled(b, m) && h in b
    ensures h in m
  {
    assert InBlock(b, h, h);
  }

  /** A list is empty exactly when no block of its order is free. */
  lemma ListHead(b: Blocks, m: set<nat>, lists: Lists, heads: seq<int>, pg: seq<Page>, x: int, k: nat)
    requires Inv(b, m, lists, heads, pg, x) && k < MAX_ORDER
    ensures |heads| == |lists| == MAX_ORDER && NIL <= heads[k] < |pg|
    ensures heads[k] == NIL ==> forall h :: !IsFree(b, h, k)
    ensures heads[k] != NIL ==> IsFree(b, heads[k], k)
  {
    assert Threaded(heads[k], lists[k], pg);
    if heads[k] != NIL { assert heads[k] in lists[k]; }
  }

  /** `pmm_alloc_pages` takes the head of a list. */
  lemma TakeInv(b: Blocks, m: set<nat>, lists: Lists, heads: seq<int>, pg: seq<Page>, h: nat) returns (i: nat)
    requires Inv(b, m, lists, heads, pg, NIL) && h in b && b[h].free
    ensures var k := b[h].order;
            && k < MAX_ORDER && i < |lists[k]| && h < |pg|
            && NIL <= pg[h].next < |pg| && NIL <= pg[h].prev < |pg|
            && Inv(SetFree(b, h, false), m, lists[k := lists[k][..i] + lists[k][i + 1..]],
                   heads[k := RemovedHead(heads[k], pg, h)], Removed(pg, h), h)
  {
    var b' := SetFree(b, h, false);
    SetFreeTiled(b, m, h, false);
    TakeCoalesced(b, h);
    assert forall g, k :: g != h ==> (IsFree(b', g, k) <==> IsFree(b, g, k));
    i := RemoveListsHold(b, lists, heads, pg, h, b');
    assert Marked(b', m, pg, h);
    MarkedSame(b', m, pg, Removed(pg, h), h);
  }

  /** It gives back the upper half `u` of the block in flight. */
  lemma SplitFacts(b: Blocks, m: set<nat>, h: nat, k: nat, u: nat)
    requires Tiled(b, m) && Coalesced(b) && h in b && b[h] == Block(k + 1, false) && u == h + Pow2(k)
    ensures k + 1 < MAX_ORDER && u == Flip(h, k) && u !in b && u in m
    ensures var b' := SplitBlock(b, h);
            && Tiled(b', m) && Coalesced(b') && u in b' && b'[u] == Block(k, true)
            && h in b' && b'[h] == Block(k, false)
            && (forall j :: !IsFree(b, u, j))
            && (forall g, j :: g != u ==> (IsFree(b', g, j) <==> IsFree(b, g, j)))
  {
    var b' := SplitBlock(b, h);
    UpperHalfInside(b, m, h);
    Halves(h, k);
    SplitTiled(b, m, h);
    SplitCoalesced(b, m, h);
    InManaged(b', m, u);
  }

  lemma SplitInv(b: Blocks, m: set<nat>, lists: Lists, heads: seq<int>, pg: seq<Page>, h: nat, k: nat, u: nat, pg': seq<Page>)
    requires Inv(b, m, lists, heads, pg, h) && h in b && b[h] == Block(k + 1, false)
    requires u == h + Pow2(k) && u < |pg| && pg' == pg[u := pg[u].(isFree := true, order := k)]
    ensures k + 1 < MAX_ORDER && NIL <= heads[k] < |pg|
    ensures Inv(SplitBlock(b, h), m, lists[k := [u] + lists[k]], heads[k := u], Added(pg', heads[k], u), h)
  {
    hide Tiled, Coalesced, Marked, SplitBlock, Threaded, Added, SameMarks, Flip, Pow2;
    SplitFacts(b, m, h, k, u);
    SplitMarked(b, m, pg, h, k, u, pg');
    var b' := SplitBlock(b, h);
    RethreadMarks(b, lists, heads, pg, pg');
    AddListsHold(b, lists, heads, pg', u, b');
    MarkedSame(b', m, pg', Added(pg', heads[k], u), h);
  }

  lemma SplitMarked(b: Blocks, m: set<nat>, pg: seq<Page>, h: nat, k: nat, u: nat, pg': seq<Page>)
    requires Marked(b, m, pg, h) && h in b && b[h] == Block(k + 1, false) && u in m && u !in b
    requires u == h + Pow2(k) && u < |pg| && pg' == pg[u := pg[u].(isFree := true, order := k)]
    ensures Marked(SplitBlock(b, h), m, pg', h)
  {
    assert SplitBlock(b, h) == b[h := Block(k, false)][u := Block(k, true)];
  }

  lemma MarkedSame(b: Blocks, m: set<nat>, pg: seq<Page>, pg': seq<Page>, x: int)
    requires Marked(b, m, pg, x) && SameMarks(pg, pg')
    ensures Marked(b, m, pg', x)
  {
  }

  lemma RethreadMarks(b: Blocks, lists: Lists, heads: seq<int>, pg: seq<Page>, pg': seq<Page>)
    requires ListsHold(b, lists, heads, pg) && |pg'| == |pg|
    requires forall p :: 0 <= p < |pg| ==> pg'[p].next == pg[p].next && pg'[p].prev == pg[p].prev
    ensures ListsHold(b, lists, heads, pg')
  {
    forall k | 0 <= k < MAX_ORDER ensures Threaded(heads[k], lists[k], pg') {
      assert Threaded(heads[k], lists[k], pg);
    }
  }

  /** The block in flight has been marked as the blocks say. */
  lemma LandInv(b: Blocks, m: set<nat>, lists: Lists, heads: seq<int>, pg: seq<Page>, x: nat)
    requires Inv(b, m, lists, heads, pg, x) && x < |pg|
    requires x in b ==> pg[x].isFree == b[x].free && pg[x].order == b[x].order
    ensures Inv(b, m, lists, heads, pg, NIL)
  {
  }

  /** `pmm_free_pages` takes the free buddy `u` of the block in flight and moves one order up. */
  lemma AbsorbInv(b: Blocks, m: set<nat>, lists: Lists, heads: seq<int>, pg: seq<Page>, h: nat, k: nat, u: nat, lo: nat) returns (i: nat)
    requires Inv(b, m, lists, heads, pg, h) && k + 1 < MAX_ORDER && IsUsed(b, h, k)
    requires u == Flip(h, k) && IsFree(b, u, k) && lo == if u < h then u else h
    ensures i < |lists[k]| && u < |pg| && lo < |pg|
    ensures NIL <= pg[u].next < |pg| && NIL <= pg[u].prev < |pg|
    ensures var pg' := Removed(pg, u);
            && |pg'| == |pg| && SameMarks(pg, pg')
            && Inv(Absorbed(b, h, k), m, lists[k := lists[k][..i] + lists[k][i + 1..]],
                   heads[k := RemovedHead(heads[k], pg, u)], pg'[lo := pg'[lo].(order := k + 1)], lo)
  {
    hide Tiled, Coalesced, Threaded, Marked, Flip;
    AbsorbFacts(b, m, pg, h, k, u, lo);
    hide Absorbed, Removed, RemovedHead, SameMarks;
    var b' := Absorbed(b, h, k);
    i := RemoveListsHold(b, lists, heads, pg, u, b');
    var pg1 := Removed(pg, u);
    var lists', heads' := lists[k := lists[k][..i] + lists[k][i + 1..]], heads[k := RemovedHead(heads[k], pg, u)];
    MarkedSame(b', m, pg, pg1, lo);
    ReorderMarked(b', m, pg1, lo, k + 1);
    RethreadMarks(b', lists', heads', pg1, pg1[lo := pg1[lo].(order := k + 1)]);
  }

  lemma AbsorbFacts(b: Blocks, m: set<nat>, pg: seq<Page>, h: nat, k: nat, u: nat, lo: nat)
    requires Tiled(b, m) && Coalesced(b) && Marked(b, m, pg, h) && k + 1 < MAX_ORDER && IsUsed(b, h, k)
    requires u == Flip(h, k) && IsFree(b, u, k) && lo == if u < h then u else h
    ensures var b' := Absorbed(b, h, k);
            && Tiled(b', m) && Coalesced(b') && lo < |pg| && Marked(b', m, pg, lo)
            && (forall g, j :: g != u ==> (IsFree(b', g, j) <==> IsFree(b, g, j)))
            && (forall j :: !IsFree(b', u, j))
  {
    AbsorbKeeps(b, m, h, k);
    Buddies(h, k);
    AbsorbMarked(b, m, pg, h, k, u, lo);
  }

  lemma ReorderMarked(b: Blocks, m: set<nat>, pg: seq<Page>, x: nat, k: nat)
    requires Marked(b, m, pg, x) && x < |pg|
    ensures Marked(b, m, pg[x := pg[x].(order := k)], x)
  {
  }

  lemma AbsorbMarked(b: Blocks, m: set<nat>, pg: seq<Page>, h: nat, k: nat, u: nat, lo: nat)
    requires Marked(b, m, pg, h) && h in b && u in b && u == Flip(h, k) && lo == (if u < h then u else h)
    requires lo + Pow2(k) == (if u < h then h else u)
    ensures lo < |pg| && Marked(Absorbed(b, h, k), m, pg, lo)
  {
    var b', hi := Absorbed(b, h, k), if u < h then h else u;
    forall g | g in b' ensures g in b && g != hi && (g == lo || b'[g] == b[g]) { }
    hide Absorbed, Flip;
  }

  lemma ReleaseMarked(b: Blocks, m: set<nat>, pg: seq<Page>, h: nat)
    requires Marked(b, m, pg, h) && h in b && pg[h].isFree && pg[h].order == b[h].order
    ensures Marked(SetFree(b, h, true), m, pg, NIL)
  {
  }

  /** The grown block goes on its list. */
  lemma ReleaseInv(b: Blocks, m: set<nat>, lists: Lists, heads: seq<int>, pg: seq<Page>, h: nat, k: nat)
    requires Inv(b, m, lists, heads, pg, h) && IsUsed(b, h, k) && h < |pg| && pg[h].isFree && pg[h].order == k
    requires k + 1 < MAX_ORDER ==> !IsFree(b, Flip(h, k), k)
    ensures k < MAX_ORDER && NIL <= heads[k] < |pg|
    ensures Inv(SetFree(b, h, true), m, lists[k := [h] + lists[k]], heads[k := h], Added(pg, heads[k], h), NIL)
  {
    var b' := SetFree(b, h, true);
    SetFreeTiled(b, m, h, true);
    ReleaseCoalesced(b, m, h);
    ReleaseMarked(b, m, pg, h);
    hide Tiled, Coalesced, Threaded, Marked, Flip;
    AddListsHold(b, lists, heads, pg, h, b');
    hide Added, ListsHold, SameMarks;
    MarkedSame(b', m, pg, Added(pg, heads[k], h), NIL);
  }
}
