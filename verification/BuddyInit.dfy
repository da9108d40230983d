/** `pmm_init` of kernel/arch/x86_64/mmu.c, in units of page frames. */
module BuddyInit {
  import opened BuddyArith
  import opened BuddyTiling
  import opened BuddyLists
  import opened BuddyAllocator
  import opened BuddyPmm

  // ----- growing the tiling by one free block -----

  ghost function Span(h: nat, k: nat): set<nat> {
    set p | h <= p < h + Pow2(k) && Holds(h, k, p)
  }

  lemma GrowTiled(b: Blocks, m: set<nat>, h: nat, k: nat)
    requires Tiled(b, m) && k < MAX_ORDER && Aligned(h, k) && Span(h, k) !! m
    ensures h !in b && Tiled(b[h := Block(k, true)], m + Span(h, k))
  {
    var b', m' := b[h := Block(k, true)], m + Span(h, k);
    assert h in Span(h, k);
    assert h !in b by { assert h in b ==> InBlock(b, h, h); }
    forall g: nat, p: nat ensures InBlock(b', g, p) <==> (if g == h then p in Span(h, k) else InBlock(b, g, p)) { }
    assert forall g :: g in b' ==> b'[g].order < MAX_ORDER && Aligned(g, b'[g].order);
    hide InBlock, Span, Aligned;
    forall p | p in m' ensures exists g :: InBlock(b', g, p) {
      if p in m {
        var g: nat :| InBlock(b, g, p);
        assert g != h;
        assert InBlock(b', g, p);
      } else {
        assert InBlock(b', h, p);
      }
    }
  }

  /** The segment being filled: `[seg, curr)` is done, `[curr, limit)` is next, and no managed frame
      touches the segment from outside.  Every block in it was as large as it could be. */
  ghost predicate Filling(b: Blocks, m: set<nat>, seg: nat, curr: nat, limit: nat) {
    && seg <= curr <= limit
    && (forall p :: p in m ==> p + 1 < seg || seg <= p < curr || limit < p)
    && (forall p :: seg <= p < curr ==> p in m)
    && (forall g :: g in b && seg <= g < limit ==>
          b[g].order + 1 >= MAX_ORDER || !Aligned(g, b[g].order + 1) || limit < g + Pow2(b[g].order + 1))
  }

  /** The largest order that fits at `h` without leaving the segment. */
  ghost predicate Greedy(h: nat, k: nat, limit: nat) {
    && k < MAX_ORDER && Aligned(h, k) && h + Pow2(k) <= limit
    && (k + 1 >= MAX_ORDER || !Aligned(h, k + 1) || limit < h + Pow2(k + 1))
  }

  /** The block just placed cannot be merged with a free neighbour. */
  lemma NoFreeBuddy(b: Blocks, m: set<nat>, seg: nat, h: nat, limit: nat, k: nat)
    requires Tiled(b, m) && Filling(b, m, seg, h, limit) && Greedy(h, k, limit) && k + 1 < MAX_ORDER
    ensures !IsFree(b, Flip(h, k), k)
  {
    var u := Flip(h, k);
    Buddies(h, k);
    forall p: nat | Holds(u, k, p) ensures IsFree(b, u, k) ==> p in m {
      assert IsFree(b, u, k) ==> InBlock(b, u, p);
    }
    assert Holds(u, k, u);
    assert u < h ==> Holds(u, k, h - 1);
    assert u < seg < h ==> Holds(u, k, seg - 1);
    assert Pow2(k + 1) == Pow2(k) + Pow2(k);
  }

  lemma GrowCoalesced(b: Blocks, m: set<nat>, h: nat, k: nat)
    requires Tiled(b, m) && Coalesced(b) && h !in b && Aligned(h, k)
    requires k + 1 < MAX_ORDER ==> !IsFree(b, Flip(h, k), k)
    ensures Coalesced(b[h := Block(k, true)])
  {
    var b' := b[h := Block(k, true)];
    Buddies(h, k);
    forall g: nat, j: nat | j + 1 < MAX_ORDER && IsFree(b', g, j) ensures !IsFree(b', Flip(g, j), j) {
      if g != h {
        assert IsFree(b, g, j);
        if Flip(g, j) == h && j == k { Buddies(g, j); }
      }
    }
  }

  lemma GrowFilling(b: Blocks, m: set<nat>, seg: nat, h: nat, limit: nat, k: nat)
    requires Tiled(b, m) && Filling(b, m, seg, h, limit) && Greedy(h, k, limit)
    ensures Span(h, k) !! m
    ensures Filling(b[h := Block(k, true)], m + Span(h, k), seg, h + Pow2(k), limit)
  {
  }

  // ----- placing one block -----

  lemma GrowInv(b: Blocks, m: set<nat>, lists: Lists, heads: seq<int>, pg: seq<Page>, h: nat, k: nat, pg': seq<Page>)
    requires Inv(b, m, lists, heads, pg, NIL) && k < MAX_ORDER && Aligned(h, k) && Span(h, k) !! m
    requires h + Pow2(k) <= |pg| && (k + 1 < MAX_ORDER ==> !IsFree(b, Flip(h, k), k))
    requires pg' == pg[h := pg[h].(isFree := true, order := k)]
    ensures |lists| == |heads| == MAX_ORDER && NIL <= heads[k] < |pg|
    ensures Inv(b[h := Block(k, true)], m + Span(h, k), lists[k := [h] + lists[k]], heads[k := h],
                Added(pg', heads[k], h), NIL)
  {
    var b', m' := b[h := Block(k, true)], m + Span(h, k);
    GrowTiled(b, m, h, k);
    GrowCoalesced(b, m, h, k);
    GrowMarked(b, m, pg, h, k, pg');
    hide Tiled, Coalesced, Marked, Threaded, Added, SameMarks, Flip, Pow2, Span;
    RethreadMarks(b, lists, heads, pg, pg');
    AddListsHold(b, lists, heads, pg', h, b');
    MarkedSame(b', m', pg', Added(pg', heads[k], h), NIL);
  }

  lemma GrowMarked(b: Blocks, m: set<nat>, pg: seq<Page>, h: nat, k: nat, pg': seq<Page>)
    requires Marked(b, m, pg, NIL) && h !in b && h + Pow2(k) <= |pg|
    requires pg' == pg[h := pg[h].(isFree := true, order := k)]
    ensures Marked(b[h := Block(k, true)], m + Span(h, k), pg', NIL)
  {
    assert h in Span(h, k);
  }

  method Place(pmm: Pmm, h: nat, k: nat)
    requires pmm.Valid() && k < MAX_ORDER && Aligned(h, k) && Span(h, k) !! pmm.managed
    requires h + Pow2(k) <= pmm.pages.Length && (k + 1 < MAX_ORDER ==> !IsFree(pmm.blocks, Flip(h, k), k))
    modifies pmm`blocks, pmm`lists, pmm`managed, pmm.pages, pmm.freeLists
    ensures pmm.Valid() && pmm.blocks == old(pmm.blocks)[h := Block(k, true)]
    ensures pmm.managed == old(pmm.managed) + Span(h, k)
  {
    hide Inv, Added, Flip;
    ghost var pg := pmm.pages[..];
    pmm.pages[h] := pmm.pages[h].(isFree := true, order := k);
    GrowInv(pmm.blocks, pmm.managed, pmm.lists, pmm.freeLists[..], pg, h, k, pmm.pages[..]);
    pmm.AddToList(k, h);
    pmm.lists := pmm.lists[k := [h] + pmm.lists[k]];
    pmm.blocks := pmm.blocks[h := Block(k, true)];
    pmm.managed := pmm.managed + Span(h, k);
  }

  /** The largest order that is aligned at `curr` and fits in `remaining` frames. */
  method PickOrder(curr: nat, remaining: nat) returns (order: nat)
    requires remaining > 0
    ensures Greedy(curr, order, curr + remaining)
  {
    order := MAX_ORDER - 1;
    while order > 0 && !(remaining >= Pow2(order) && curr % Pow2(order) == 0)
      invariant order < MAX_ORDER
      invariant order + 1 >= MAX_ORDER || !(remaining >= Pow2(order + 1) && curr % Pow2(order + 1) == 0)
    {
      order := order - 1;
    }
  }

  // ----- one usable region, minus the page array -----

  /** Where the segment around `curr` ends. */
  function LimitAt(curr: nat, end: nat, arrayStart: nat): nat {
    if curr < arrayStart && end > arrayStart then arrayStart else end
  }

  predicate IsUsable(p: nat, start: nat, end: nat, arrayStart: nat, arrayEnd: nat) {
    start <= p < end && !(arrayStart <= p < arrayEnd)
  }

  ghost function Usable(start: nat, end: nat, arrayStart: nat, arrayEnd: nat): set<nat> {
    set p | start <= p < end && IsUsable(p, start, end, arrayStart, arrayEnd)
  }

  lemma PlaceReady(b: Blocks, m: set<nat>, lists: Lists, heads: seq<int>, pg: seq<Page>, seg: nat, h: nat, limit: nat, k: nat)
    requires Inv(b, m, lists, heads, pg, NIL) && Filling(b, m, seg, h, limit) && Greedy(h, k, limit)
    ensures Span(h, k) !! m && (k + 1 < MAX_ORDER ==> !IsFree(b, Flip(h, k), k))
    ensures Filling(b[h := Block(k, true)], m + Span(h, k), seg, h + Pow2(k), limit)
  {
    hide Tiled, Coalesced, ListsHold, Marked;
    GrowFilling(b, m, seg, h, limit, k);
    if k + 1 < MAX_ORDER { NoFreeBuddy(b, m, seg, h, limit, k); }
  }

  /** A segment nothing has been placed in yet. */
  lemma StartFilling(b: Blocks, m: set<nat>, lists: Lists, heads: seq<int>, pg: seq<Page>, seg: nat, limit: nat)
    requires Inv(b, m, lists, heads, pg, NIL) && seg <= limit
    requires forall p :: p in m ==> p + 1 < seg || limit < p
    ensures Filling(b, m, seg, seg, limit)
  {
    hide Tiled, Coalesced, ListsHold;
  }

  /** Tiles the frames of one region, jumping over the page array. */
  method FillRegion(pmm: Pmm, start: nat, end: nat, arrayStart: nat, arrayEnd: nat)
    requires pmm.Valid() && end <= pmm.pages.Length && arrayStart < arrayEnd
    requires forall p :: p in pmm.managed ==> p + 1 < start || end < p
    modifies pmm`blocks, pmm`lists, pmm`managed, pmm.pages, pmm.freeLists
    ensures pmm.Valid() && pmm.managed == old(pmm.managed) + Usable(start, end, arrayStart, arrayEnd)
    ensures (forall h :: h in old(pmm.blocks) ==> old(pmm.blocks)[h].free) ==>
              forall h :: h in pmm.blocks ==> pmm.blocks[h].free
  {
    hide Inv, Filling, Greedy, Span;
    var curr: nat := start;
    ghost var seg: nat, m0 := start, pmm.managed;
    if start <= end {
      StartFilling(pmm.blocks, m0, pmm.lists, pmm.freeLists[..], pmm.pages[..], start, LimitAt(start, end, arrayStart));
    }
    while curr < end
      invariant start <= curr && pmm.Valid() && pmm.managed == m0 + Usable(start, if curr < end then curr else end, arrayStart, arrayEnd)
      invariant curr < end ==> arrayStart <= curr < arrayEnd || Filling(pmm.blocks, pmm.managed, seg, curr, LimitAt(curr, end, arrayStart))
      invariant (forall h :: h in old(pmm.blocks) ==> old(pmm.blocks)[h].free) ==>
                forall h :: h in pmm.blocks ==> pmm.blocks[h].free
      decreases end - curr
    {
      if arrayStart <= curr < arrayEnd {
        curr := arrayEnd;
        seg := curr;
        if curr < end {
          StartFilling(pmm.blocks, pmm.managed, pmm.lists, pmm.freeLists[..], pmm.pages[..], curr, end);
        }
        continue;
      }
      var limit := LimitAt(curr, end, arrayStart);
      var order := PickOrder(curr, limit - curr);
      PlaceReady(pmm.blocks, pmm.managed, pmm.lists, pmm.freeLists[..], pmm.pages[..], seg, curr, limit, order);
      GreedyBounds(curr, order, limit);
      Place(pmm, curr, order);
      curr := curr + Pow2(order);
    }
  }

  lemma GreedyBounds(h: nat, k: nat, limit: nat)
    requires Greedy(h, k, limit)
    ensures k < MAX_ORDER && Aligned(h, k) && h + Pow2(k) <= limit
    ensures forall p: nat :: p in Span(h, k) <==> h <= p < h + Pow2(k)
  {
  }

  // ----- pmm_init -----

  const PAGE_SIZE := 4096

  /** `sizeof(page_t)`: two links, four small fields packed in eight bytes, two counts, three pointers. */
  const PAGE_STRUCT := 56

  /** The memory-map types that matter here; `Other` is every reserved kind. */
  datatype Kind = Free | KernelAndModules | BootloaderReclaim | Other

  datatype Region = Region(base: nat, length: nat, kind: Kind)

  function FramesUp(bytes: nat): nat {
    (bytes + PAGE_SIZE - 1) / PAGE_SIZE
  }

  function FirstFrame(r: Region): nat {
    FramesUp(r.base)
  }

  function EndFrame(r: Region): nat {
    (r.base + r.length) / PAGE_SIZE
  }

  /** Free regions do not overlap and have at least one frame between them. */
  ghost predicate Apart(regions: seq<Region>) {
    forall i, j :: 0 <= i < |regions| && 0 <= j < |regions| && i != j && regions[i].kind.Free? && regions[j].kind.Free? ==>
      EndFrame(regions[i]) < FirstFrame(regions[j]) || EndFrame(regions[j]) < FirstFrame(regions[i])
  }

  /** `g_pmm.total_pages`: the frame after the last byte of the regions that are or will be usable. */
  ghost predicate IsTotal(regions: seq<Region>, total: nat) {
    && (forall i :: 0 <= i < |regions| && !regions[i].kind.Other? ==> FramesUp(regions[i].base + regions[i].length) <= total)
    && (total != 0 ==> exists i :: 0 <= i < |regions| && !regions[i].kind.Other?
                                   && total == FramesUp(regions[i].base + regions[i].length))
  }

  method TotalPages(regions: seq<Region>) returns (total: nat)
    ensures IsTotal(regions, total)
    ensures forall i :: 0 <= i < |regions| && regions[i].kind.Free? ==> EndFrame(regions[i]) <= total
  {
    var maxAddr := 0;
    for i := 0 to |regions|
      invariant forall j :: 0 <= j < i && !regions[j].kind.Other? ==> regions[j].base + regions[j].length <= maxAddr
      invariant maxAddr != 0 ==> exists j :: 0 <= j < i && !regions[j].kind.Other? && maxAddr == regions[j].base + regions[j].length
    {
      if !regions[i].kind.Other? {
        var end := regions[i].base + regions[i].length;
        if end > maxAddr {
          maxAddr := end;
        }
      }
    }
    total := FramesUp(maxAddr);
  }

  predicate Fits(r: Region, frames: nat) {
    r.kind.Free? && FirstFrame(r) < EndFrame(r) && EndFrame(r) - FirstFrame(r) >= frames
  }

  /** Region `i` is the one the search for a place for the page array stops at. */
  ghost predicate FirstFit(regions: seq<Region>, frames: nat, i: nat) {
    && i < |regions| && Fits(regions[i], frames)
    && forall j :: 0 <= j < i ==> !Fits(regions[j], frames)
  }

  /** The first frame of the first free region that can hold the page array; 0 if there is none, and
      also if that region starts at frame 0, even when a later one would do. */
  method PlaceArray(regions: seq<Region>, frames: nat) returns (start: nat)
    ensures forall i: nat :: FirstFit(regions, frames, i) ==> start == FirstFrame(regions[i])
    ensures start != 0 <==> exists i: nat :: FirstFit(regions, frames, i) && FirstFrame(regions[i]) != 0
  {
    for i := 0 to |regions|
      invariant forall j :: 0 <= j < i ==> !Fits(regions[j], frames)
    {
      if regions[i].kind.Free? {
        var s, e := FirstFrame(regions[i]), EndFrame(regions[i]);
        if e > s && e - s >= frames {
          assert FirstFit(regions, frames, i);
          return s;
        }
      }
    }
    return 0;
  }

  /** Where the page array lies: at the start of the first region that can hold it. */
  ghost predicate ArrayAt(regions: seq<Region>, total: nat, arrayStart: nat, arrayEnd: nat) {
    exists i: nat :: FirstFit(regions, FramesUp(total * PAGE_STRUCT), i)
      && 0 < arrayStart == FirstFrame(regions[i]) && arrayEnd == arrayStart + FramesUp(total * PAGE_STRUCT) <= EndFrame(regions[i])
  }

  ghost predicate InSomeRegion(regions: seq<Region>, n: nat, p: nat) {
    exists i :: 0 <= i < n && i < |regions| && regions[i].kind.Free? && FirstFrame(regions[i]) <= p < EndFrame(regions[i])
  }

  /** `pmm_init`: the free blocks tile exactly the usable frames minus the page array, with no two free
      buddies left unmerged.  `ok` is false when the search finds no place for the page array. */
  method Init(regions: seq<Region>) returns (ok: bool, pmm: Pmm, arrayStart: nat, arrayEnd: nat)
    requires Apart(regions)
    ensures pmm.Valid() && fresh(pmm) && IsTotal(regions, pmm.pages.Length)
    ensures ok <==> exists i: nat :: FirstFit(regions, FramesUp(pmm.pages.Length * PAGE_STRUCT), i) && FirstFrame(regions[i]) != 0
    ensures ok ==> ArrayAt(regions, pmm.pages.Length, arrayStart, arrayEnd)
    ensures ok ==> forall p: nat :: p in pmm.managed <==>
      InSomeRegion(regions, |regions|, p) && !(arrayStart <= p < arrayEnd)
    ensures !ok ==> pmm.managed == {}
    ensures forall h :: h in pmm.blocks ==> pmm.blocks[h].free
  {
    hide Inv, Tiled, IsTotal;
    var total := TotalPages(regions);
    var frames := FramesUp(total * PAGE_STRUCT);
    pmm := new Pmm(total);
    arrayStart := PlaceArray(regions, frames);
    arrayEnd := arrayStart + frames;
    if arrayStart == 0 {
      return false, pmm, 0, 0;
    }
    assert frames > 0;
    assert ArrayAt(regions, total, arrayStart, arrayEnd);
    for i := 0 to |regions|
      invariant pmm.Valid() && pmm.pages.Length == total && fresh(pmm) && fresh(pmm.pages) && fresh(pmm.freeLists)
      invariant forall p: nat :: p in pmm.managed <==> InSomeRegion(regions, i, p) && !(arrayStart <= p < arrayEnd)
      invariant forall h :: h in pmm.blocks ==> pmm.blocks[h].free
    {
      if regions[i].kind.Free? {
        FillRegion(pmm, FirstFrame(regions[i]), EndFrame(regions[i]), arrayStart, arrayEnd);
      }
    }
    ok := true;
  }
}
