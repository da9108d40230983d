/** Free and allocated blocks as a tiling of the managed page frames. */
module BuddyTiling {
  import opened BuddyArith

  datatype Block = Block(order: nat, free: bool)

  /** Blocks by their first frame. */
  type Blocks = map<nat, Block>

  ghost predicate InBlock(b: Blocks, h: nat, p: nat) {
    h in b && Holds(h, b[h].order, p)
  }

  /** The blocks are aligned to their size, do not overlap and cover exactly the frames of `m`. */
  ghost predicate Tiled(b: Blocks, m: set<nat>) {
    && (forall h :: h in b ==> b[h].order < MAX_ORDER && Aligned(h, b[h].order))
    && (forall h, g, p :: InBlock(b, h, p) && InBlock(b, g, p) ==> h == g)
    && (forall h, p :: InBlock(b, h, p) ==> p in m)
    && (forall p :: p in m ==> exists h :: InBlock(b, h, p))
  }

  ghost predicate IsFree(b: Blocks, h: nat, k: nat) {
    h in b && b[h] == Block(k, true)
  }

  /** No two free buddies of equal order wait to be merged. */
  ghost predicate Coalesced(b: Blocks) {
    forall h: nat, k: nat :: k + 1 < MAX_ORDER && IsFree(b, h, k) ==> !IsFree(b, Flip(h, k), k)
  }

  ghost predicate FreePage(b: Blocks, p: nat) {
    exists h :: InBlock(b, h, p) && b[h].free
  }

  // ----- what the buddy test reads -----

  /** The buddy of a block is never an interior page of another block: if it is managed at all, it is
      the head of a block of at most the same order. */
  lemma BuddyIsHead(b: Blocks, m: set<nat>, h: nat, k: nat)
    requires Tiled(b, m) && h in b && b[h].order == k && Flip(h, k) in m
    ensures Flip(h, k) in b && b[Flip(h, k)].order <= k
  {
    var u := Flip(h, k);
    Buddies(h, k);
    var lo := if u < h then u else h;
    var g: nat :| InBlock(b, g, u);
    var j := b[g].order;
    if j <= k {
      Nested(g, j, u, k, u);
    } else {
      assert Holds(lo, k + 1, u);
      Nested(lo, k + 1, g, j, u);
      assert InBlock(b, g, h) && InBlock(b, h, h);
    }
  }

  // ----- moves -----

  /** A block in flight gives its upper half back as a free block. */
  ghost function SplitBlock(b: Blocks, h: nat): Blocks
    requires h in b && b[h].order > 0
  {
    var k := b[h].order - 1;
    b[h := Block(k, b[h].free)][h + Pow2(k) := Block(k, true)]
  }

  /** Two halves become one block. */
  ghost function MergeBlock(b: Blocks, lo: nat, k: nat): Blocks
    requires lo in b
  {
    (b - {lo + Pow2(k)})[lo := Block(k + 1, b[lo].free)]
  }

  ghost function SetFree(b: Blocks, h: nat, f: bool): Blocks
    requires h in b
  {
    b[h := b[h].(free := f)]
  }

  /** Which block holds a page after a split, in terms of before. */
  lemma SplitHolds(b: Blocks, m: set<nat>, h: nat, g: nat, p: nat)
    requires Tiled(b, m) && h in b && b[h].order > 0
    ensures var u := h + Pow2(b[h].order - 1);
            InBlock(SplitBlock(b, h), g, p) <==>
              (if g == h then InBlock(b, h, p) && p < u else if g == u then InBlock(b, h, p) && u <= p else InBlock(b, g, p))
  {
    assert Pow2(b[h].order) == Pow2(b[h].order - 1) + Pow2(b[h].order - 1);
  }

  /** The upper half has no block of its own yet. */
  lemma UpperHalfInside(b: Blocks, m: set<nat>, h: nat)
    requires Tiled(b, m) && h in b && b[h].order > 0
    ensures h + Pow2(b[h].order - 1) !in b
  {
    var u := h + Pow2(b[h].order - 1);
    assert InBlock(b, h, u);
    assert u in b ==> InBlock(b, u, u);
  }

  lemma SplitTiled(b: Blocks, m: set<nat>, h: nat)
    requires Tiled(b, m) && h in b && b[h].order > 0
    ensures Tiled(SplitBlock(b, h), m)
  {
    var u, b' := h + Pow2(b[h].order - 1), SplitBlock(b, h);
    Halves(h, b[h].order - 1);
    UpperHalfInside(b, m, h);
    forall g: nat, p: nat ensures InBlock(b', g, p) <==>
      (if g == h then InBlock(b, h, p) && p < u else if g == u then InBlock(b, h, p) && u <= p else InBlock(b, g, p))
    {
      SplitHolds(b, m, h, g, p);
    }
    assert forall g :: g in b' ==> b'[g].order < MAX_ORDER && Aligned(g, b'[g].order);
    assert !exists p :: InBlock(b, u, p);
    assert b' == SplitBlock(b, h);
    hide InBlock, SplitBlock, Aligned;
    forall p | p in m ensures exists g :: InBlock(b', g, p) {
      var g: nat :| InBlock(b, g, p);
      assert InBlock(b', if g == h && u <= p then u else g, p);
    }
  }

  lemma MergeHolds(b: Blocks, lo: nat, k: nat, g: nat, p: nat)
    requires lo in b && b[lo].order == k && lo + Pow2(k) in b && b[lo + Pow2(k)].order == k
    ensures var u := lo + Pow2(k);
            InBlock(MergeBlock(b, lo, k), g, p) <==>
              (if g == lo then InBlock(b, lo, p) || InBlock(b, u, p) else g != u && InBlock(b, g, p))
  {
  }

  lemma MergeTiled(b: Blocks, m: set<nat>, lo: nat, k: nat)
    requires Tiled(b, m) && k + 1 < MAX_ORDER && Aligned(lo, k + 1)
    requires lo in b && b[lo].order == k && lo + Pow2(k) in b && b[lo + Pow2(k)].order == k
    ensures Tiled(MergeBlock(b, lo, k), m)
  {
    var u, b' := lo + Pow2(k), MergeBlock(b, lo, k);
    forall g: nat, p: nat ensures InBlock(b', g, p) <==>
      (if g == lo then InBlock(b, lo, p) || InBlock(b, u, p) else g != u && InBlock(b, g, p))
    {
      MergeHolds(b, lo, k, g, p);
    }
    hide InBlock;
    forall p | p in m ensures exists g :: InBlock(b', g, p) {
      var g: nat :| InBlock(b, g, p);
      assert InBlock(b', if g == u then lo else g, p);
    }
  }

  lemma SetFreeTiled(b: Blocks, m: set<nat>, h: nat, f: bool)
    requires Tiled(b, m) && h in b
    ensures Tiled(SetFree(b, h, f), m)
  {
    var b' := SetFree(b, h, f);
    assert forall g, p :: InBlock(b', g, p) <==> InBlock(b, g, p);
  }

  // ----- coalescing -----

  /** The upper half given back has the block in flight as its buddy. */
  lemma SplitCoalesced(b: Blocks, m: set<nat>, h: nat)
    requires Tiled(b, m) && Coalesced(b) && h in b && b[h].order > 0 && !b[h].free
    ensures Coalesced(SplitBlock(b, h))
  {
    var k := b[h].order - 1;
    var u, b' := h + Pow2(k), SplitBlock(b, h);
    Halves(h, k);
    forall g: nat, j: nat | j + 1 < MAX_ORDER && IsFree(b', g, j) ensures !IsFree(b', Flip(g, j), j) {
      if g == u {
        assert Flip(g, j) == h;
      } else {
        assert IsFree(b, g, j);
        if Flip(g, j) == u && j == k { Buddies(g, j); }
      }
    }
  }

  lemma MergeCoalesced(b: Blocks, lo: nat, k: nat)
    requires Coalesced(b) && lo in b && !b[lo].free
    ensures Coalesced(MergeBlock(b, lo, k))
  {
    var b' := MergeBlock(b, lo, k);
    forall g: nat, j: nat | j + 1 < MAX_ORDER && IsFree(b', g, j) ensures !IsFree(b', Flip(g, j), j) {
      assert IsFree(b, g, j);
    }
  }

  lemma TakeCoalesced(b: Blocks, h: nat)
    requires Coalesced(b) && h in b
    ensures Coalesced(SetFree(b, h, false))
  {
    var b' := SetFree(b, h, false);
    forall g: nat, j: nat | j + 1 < MAX_ORDER && IsFree(b', g, j) ensures !IsFree(b', Flip(g, j), j) {
      assert IsFree(b, g, j);
    }
  }

  /** A block may be released once its buddy is not free, or it has the largest order. */
  lemma ReleaseCoalesced(b: Blocks, m: set<nat>, h: nat)
    requires Tiled(b, m) && Coalesced(b) && h in b && !b[h].free
    requires b[h].order + 1 < MAX_ORDER ==> !IsFree(b, Flip(h, b[h].order), b[h].order)
    ensures Coalesced(SetFree(b, h, true))
  {
    var b', k := SetFree(b, h, true), b[h].order;
    Buddies(h, k);
    forall g: nat, j: nat | j + 1 < MAX_ORDER && IsFree(b', g, j) ensures !IsFree(b', Flip(g, j), j) {
      if g != h {
        assert IsFree(b, g, j);
        if Flip(g, j) == h && j == k { Buddies(g, j); }
      }
    }
  }

  // ----- the free blocks are determined by the free pages -----

  ghost predicate Within(h: nat, k: nat, g: nat, j: nat) {
    g <= h && h + Pow2(k) <= g + Pow2(j)
  }

  /** In a coalesced tiling, an aligned run of free pages lies inside one free block. */
  lemma {:induction false} RunInBlock(b: Blocks, m: set<nat>, h: nat, k: nat) returns (g: nat)
    requires Tiled(b, m) && Coalesced(b) && k < MAX_ORDER && Aligned(h, k)
    requires forall p :: Holds(h, k, p) ==> FreePage(b, p)
    ensures g in b && b[g].free && k <= b[g].order && Within(h, k, g, b[g].order)
    decreases k
  {
    if k == 0 {
      assert Holds(h, 0, h) && FreePage(b, h);
      g :| InBlock(b, g, h) && b[g].free;
    } else {
      Halves(h, k - 1);
      var u := h + Pow2(k - 1);
      forall p | Holds(h, k - 1, p) || Holds(u, k - 1, p) ensures FreePage(b, p) { assert Holds(h, k, p); }
      var g1 := RunInBlock(b, m, h, k - 1);
      var g2 := RunInBlock(b, m, u, k - 1);
      assert Holds(h, k, h) && Holds(g1, b[g1].order, h) && Holds(g2, b[g2].order, u) && Holds(h, k, u);
      if b[g1].order >= k {
        g := g1;
        Nested(h, k, g, b[g].order, h);
      } else {
        g := g2;
        assert g1 == h && IsFree(b, h, k - 1);
        assert !IsFree(b, u, k - 1);
        assert b[g2].order >= k;
        Nested(h, k, g, b[g].order, u);
      }
    }
  }

  /** A free block of one coalesced tiling is a free block of every other with the same free pages. */
  lemma FreeBlockShared(b: Blocks, b': Blocks, m: set<nat>, m': set<nat>, h: nat)
    requires Tiled(b, m) && Coalesced(b) && Tiled(b', m') && Coalesced(b')
    requires forall p :: FreePage(b, p) <==> FreePage(b', p)
    requires h in b && b[h].free
    ensures h in b' && b'[h] == b[h]
  {
    var k := b[h].order;
    forall p | Holds(h, k, p) ensures FreePage(b', p) { assert InBlock(b, h, p) && FreePage(b, p); }
    var g := RunInBlock(b', m', h, k);
    var j := b'[g].order;
    forall p | Holds(g, j, p) ensures FreePage(b, p) { assert InBlock(b', g, p) && FreePage(b', p); }
    var f := RunInBlock(b, m, g, j);
    assert InBlock(b, f, h) && InBlock(b, h, h);
    Pow2Strict(k, j);
  }

  lemma {:induction false} Pow2Strict(k: nat, j: nat)
    requires k <= j && Pow2(j) <= Pow2(k)
    ensures k == j
  {
    if k < j { Pow2Monotone(k, j - 1); }
  }

  /** The canonical form: which blocks are free depends only on which pages are free, not on the
      history of calls. */
  lemma FreeBlocksCanonical(b: Blocks, b': Blocks, m: set<nat>, m': set<nat>)
    requires Tiled(b, m) && Coalesced(b) && Tiled(b', m') && Coalesced(b')
    requires forall p :: FreePage(b, p) <==> FreePage(b', p)
    ensures forall h, k :: IsFree(b, h, k) <==> IsFree(b', h, k)
  {
    forall h, k | IsFree(b, h, k) ensures IsFree(b', h, k) { FreeBlockShared(b, b', m, m', h); }
    forall h, k | IsFree(b', h, k) ensures IsFree(b, h, k) { FreeBlockShared(b', b, m', m, h); }
  }
}
