/** `pmm_alloc_pages`, `pmm_free_pages` and the list operations on the page array. */
module BuddyPmm {
  import opened BuddyArith
  import opened BuddyTiling
  import opened BuddyLists
  import opened BuddyAllocator

  /** A free block of order `k` begins at `page`, and none smaller would do for `order`. */
  ghost predicate BestFit(blocks: Blocks, page: nat, order: nat, k: nat) {
    order <= k && IsFree(blocks, page, k) && forall h: nat, j: nat :: order <= j < k ==> !IsFree(blocks, h, j)
  }

  class Pmm {
    const pages: array<Page>
    const freeLists: array<int>
    /** The frames handed to the allocator at initialisation. */
    ghost var managed: set<nat>
    ghost var blocks: Blocks
    ghost var lists: Lists

    /** An allocator without pages: the zeroed page array and empty lists. */
    constructor (totalPages: nat)
      ensures Valid() && pages.Length == totalPages && managed == {} && blocks == map[]
      ensures fresh(pages) && fresh(freeLists)
    {
      pages := new Page[totalPages](_ => Page(NIL, NIL, 0, 0, false));
      freeLists := new int[MAX_ORDER](_ => NIL);
      managed, blocks, lists := {}, map[], seq(MAX_ORDER, _ => []);
      new;
      assert forall k :: 0 <= k < MAX_ORDER ==> Threaded(freeLists[..][k], lists[k], pages[..]);
    }

    /** Everything is in order except that the block headed by `x` (or none, if `NIL`) is in flight. */
    ghost predicate InFlight(x: int)
      reads this, pages, freeLists
    {
      freeLists.Length == MAX_ORDER && Inv(blocks, managed, lists, freeLists[..], pages[..], x)
    }

    ghost predicate Valid()
      reads this, pages, freeLists
    {
      InFlight(NIL)
    }

    // ----- add_to_list, remove_from_list, get_buddy -----

    method AddToList(k: nat, node: nat)
      requires k < freeLists.Length && node < pages.Length && NIL <= freeLists[k] < pages.Length
      modifies pages, freeLists
      ensures pages[..] == Added(old(pages[..]), old(freeLists[k]), node)
      ensures freeLists[..] == old(freeLists[..])[k := node]
    {
      var head := freeLists[k];
      pages[node] := pages[node].(next := head, prev := NIL);
      if head != NIL {
        pages[head] := pages[head].(prev := node);
      }
      freeLists[k] := node;
    }

    method RemoveFromList(k: nat, target: nat)
      requires k < freeLists.Length && target < pages.Length
      requires NIL <= pages[target].next < pages.Length && NIL <= pages[target].prev < pages.Length
      modifies pages, freeLists
      ensures pages[..] == Removed(old(pages[..]), target)
      ensures freeLists[..] == old(freeLists[..])[k := RemovedHead(old(freeLists[k]), old(pages[..]), target)]
    {
      var next, prev := pages[target].next, pages[target].prev;
      if prev != NIL {
        pages[prev] := pages[prev].(next := next);
      } else {
        freeLists[k] := next;
      }
      if next != NIL {
        pages[next] := pages[next].(prev := prev);
      }
      pages[target] := pages[target].(next := NIL, prev := NIL);
    }

    /** The page whose number differs from `page` in bit `k` and no other, or `NIL` if that is beyond
        the page array. */
    method GetBuddy(page: nat, k: nat) returns (b: int)
      ensures b != NIL ==> 0 <= b < pages.Length && IsXor(b, page, k)
      ensures b == NIL ==> forall x: nat :: IsXor(x, page, k) ==> x >= pages.Length
    {
      forall x: nat ensures IsXor(x, page, k) <==> x == Flip(page, k) { FlipIsXor(x, page, k); }
      var idx := Flip(page, k);
      return if idx >= pages.Length then NIL else idx;
    }

    // ----- pmm_alloc_pages -----

    method TakeHead(k: nat, page: nat)
      requires Valid() && k < MAX_ORDER && freeLists[k] == page
      modifies this`blocks, this`lists, pages, freeLists
      ensures IsFree(old(blocks), page, k) && InFlight(page) && blocks == SetFree(old(blocks), page, false)
    {
      hide Inv;
      ListHead(blocks, managed, lists, freeLists[..], pages[..], NIL, k);
      ghost var i := TakeInv(blocks, managed, lists, freeLists[..], pages[..], page);
      RemoveFromList(k, page);
      blocks := SetFree(blocks, page, false);
      lists := lists[k := lists[k][..i] + lists[k][i + 1..]];
    }

    /** Takes the first block of the smallest non-empty list of at least the given order. */
    method TakeBlock(order: nat) returns (page: int, current: nat)
      requires Valid()
      modifies this`blocks, this`lists, pages, freeLists
      ensures page == NIL ==> Valid() && blocks == old(blocks) && pages[..] == old(pages[..])
      ensures page == NIL ==> forall h, k :: order <= k < MAX_ORDER ==> !IsFree(blocks, h, k)
      ensures page != NIL ==> 0 <= page && order <= current < MAX_ORDER && IsFree(old(blocks), page, current)
      ensures page != NIL ==> InFlight(page) && blocks == SetFree(old(blocks), page, false)
      ensures page != NIL ==> forall h, k :: order <= k < current ==> !IsFree(old(blocks), h, k)
    {
      hide Inv;
      page, current := NIL, order;
      while current < MAX_ORDER
        invariant order <= current && page == NIL && Valid() && blocks == old(blocks) && pages[..] == old(pages[..])
        invariant forall h, k :: order <= k < current && k < MAX_ORDER ==> !IsFree(blocks, h, k)
      {
        ListHead(blocks, managed, lists, freeLists[..], pages[..], NIL, current);
        if freeLists[current] != NIL {
          page := freeLists[current];
          TakeHead(current, page);
          return;
        }
        current := current + 1;
      }
    }

    /** Gives back upper halves until the block in flight has the order asked for. */
    method Shrink(page: nat, order: nat, from: nat, ghost b0: Blocks)
      requires InFlight(page) && order <= from && IsUsed(blocks, page, from) && Allocates(b0, blocks, page, from)
      requires forall k :: !IsUsed(b0, page, k)
      modifies this`blocks, this`lists, pages, freeLists
      ensures InFlight(page) && IsUsed(blocks, page, order) && Allocates(b0, blocks, page, order)
    {
      hide Inv, Allocates;
      var current := from;
      while current > order
        invariant order <= current && InFlight(page) && IsUsed(blocks, page, current) && Allocates(b0, blocks, page, current)
      {
        current := current - 1;
        SplitHalf(page, current, b0);
      }
    }

    method SplitHalf(page: nat, current: nat, ghost b0: Blocks)
      requires InFlight(page) && IsUsed(blocks, page, current + 1) && Allocates(b0, blocks, page, current + 1)
      requires forall k :: !IsUsed(b0, page, k)
      modifies this`blocks, this`lists, pages, freeLists
      ensures InFlight(page) && IsUsed(blocks, page, current) && Allocates(b0, blocks, page, current)
    {
      hide Inv, Allocates, Pow2, Flip, SplitBlock, Added;
      ghost var u, pg := page + Pow2(current), pages[..];
      SplitReady(blocks, managed, lists, freeLists[..], pg, page, current, u, b0);
      var buddy := GetBuddy(page, current);
      FlipIsXor(if buddy == NIL then Flip(page, current) else buddy, page, current);
      pages[buddy] := pages[buddy].(isFree := true, order := current);
      SplitInv(blocks, managed, lists, freeLists[..], pg, page, current, u, pages[..]);
      AddToList(current, buddy);
      lists := lists[current := [u] + lists[current]];
      blocks := SplitBlock(blocks, page);
    }

    /** `pmm_alloc_pages`: fails only when no block of at least this order is free. */
    method Alloc(order: nat) returns (page: int)
      requires Valid()
      modifies this`blocks, this`lists, pages, freeLists
      ensures Valid()
      ensures page == NIL <==> forall h, k :: order <= k < MAX_ORDER ==> !IsFree(old(blocks), h, k)
      ensures page == NIL ==> blocks == old(blocks)
      ensures page != NIL ==> 0 <= page < pages.Length && pages[page].refCount == 0
      ensures page != NIL ==> IsUsed(blocks, page, order) && Allocates(old(blocks), blocks, page, order)
      ensures page != NIL ==> exists k: nat :: k < MAX_ORDER && BestFit(old(blocks), page, order, k)
    {
      hide Inv, Allocates, Remarked;
      ghost var b0 := blocks;
      var current;
      page, current := TakeBlock(order);
      if page == NIL {
        return;
      }
      assert BestFit(b0, page, order, current);
      TakeReady(b0, managed, page, current, blocks, lists, freeLists[..], pages[..]);
      Shrink(page, order, current, b0);
      ghost var pg := pages[..];
      InFlightBound(blocks, managed, lists, freeLists[..], pg, page, order);
      pages[page] := pages[page].(isFree := false, order := order, refCount := 0);
      Remark(blocks, managed, lists, freeLists[..], pg, page, pages[page]);
      LandInv(blocks, managed, lists, freeLists[..], pages[..], page);
    }

    // ----- pmm_free_pages -----

    /** One merge with the free buddy. */
    method Merge(page: nat, order: nat, buddy: nat, ghost b0: Blocks, ghost h0: nat, ghost k0: nat) returns (page': nat)
      requires InFlight(page) && order + 1 < MAX_ORDER && IsUsed(blocks, page, order)
      requires buddy == Flip(page, order) && IsFree(blocks, buddy, order) && Freeing(b0, blocks, h0, k0, page, order)
      requires page < pages.Length && pages[page].isFree && buddy < pages.Length && pages[buddy].isFree
      modifies this`blocks, this`lists, pages, freeLists
      ensures InFlight(page') && IsUsed(blocks, page', order + 1) && Freeing(b0, blocks, h0, k0, page', order + 1)
      ensures page' < pages.Length && pages[page'].isFree && pages[page'].order == order + 1
    {
      MergeReady(b0, blocks, managed, lists, freeLists[..], pages[..], h0, k0, page, order);
      hide Inv, Freeing, Flip, Absorbed, Removed, RemovedHead;
      page' := if buddy < page then buddy else page;
      ghost var i := AbsorbInv(blocks, managed, lists, freeLists[..], pages[..], page, order, buddy, page');
      RemoveFromList(order, buddy);
      pages[page'] := pages[page'].(order := order + 1);
      blocks := Absorbed(blocks, page, order);
      lists := lists[order := lists[order][..i] + lists[order][i + 1..]];
    }

    /** `pmm_free_pages` of a block at the order it was allocated with. */
    method Free(page0: nat, order0: nat)
      requires Valid() && IsUsed(blocks, page0, order0)
      modifies this`blocks, this`lists, pages, freeLists
      ensures Valid() && Frees(old(blocks), blocks, page0, order0)
    {
      hide Inv, Freeing, Frees, Flip, Remarked, Added;
      ghost var b0, pg := blocks, pages[..];
      FreeReady(blocks, managed, lists, freeLists[..], pg, page0, order0);
      var page: nat, order: nat := page0, order0;
      pages[page] := pages[page].(isFree := true, order := order);
      Remark(blocks, managed, lists, freeLists[..], pg, page, pages[page]);
      while order < MAX_ORDER - 1
        invariant order < MAX_ORDER && InFlight(page) && IsUsed(blocks, page, order)
        invariant Freeing(b0, blocks, page0, order0, page, order)
        invariant page < pages.Length && pages[page].isFree && pages[page].order == order
        decreases MAX_ORDER - order
      {
        var buddy := GetBuddy(page, order);
        FlipIsXor(if buddy == NIL then Flip(page, order) else buddy, page, order);
        BuddyTest(blocks, managed, lists, freeLists[..], pages[..], page, order);
        if buddy == NIL || !pages[buddy].isFree || pages[buddy].order != order {
          break;
        }
        page := Merge(page, order, buddy, b0, page0, order0);
        order := order + 1;
      }
      BuddyTest(blocks, managed, lists, freeLists[..], pages[..], page, order);
      ReleaseInv(blocks, managed, lists, freeLists[..], pages[..], page, order);
      AllTiled(blocks, managed, lists, freeLists[..], pages[..], page);
      FreeingEnd(b0, blocks, managed, page0, order0, page, order);
      AddToList(order, page);
      lists := lists[order := [page] + lists[order]];
      blocks := SetFree(blocks, page, true);
    }
  }

  /** The test `pmm_free_pages` makes on the buddy's page fields holds exactly when the buddy is a whole
      free block of that order, whatever stale fields interior pages carry. */
  lemma BuddyTest(b: Blocks, m: set<nat>, lists: Lists, heads: seq<int>, pg: seq<Page>, h: nat, k: nat)
    requires Inv(b, m, lists, heads, pg, h) && IsUsed(b, h, k)
    ensures IsFree(b, Flip(h, k), k) <==> Flip(h, k) < |pg| && pg[Flip(h, k)].isFree && pg[Flip(h, k)].order == k
    ensures |lists| == |heads| == MAX_ORDER
  {
    var u := Flip(h, k);
    Buddies(h, k);
    if u in m { BuddyIsHead(b, m, h, k); }
  }

  lemma AllTiled(b: Blocks, m: set<nat>, lists: Lists, heads: seq<int>, pg: seq<Page>, x: int)
    requires Inv(b, m, lists, heads, pg, x)
    ensures Tiled(b, m) && Coalesced(b)
  {
  }

  lemma TakeReady(b0: Blocks, m: set<nat>, h: nat, k: nat, b: Blocks, lists: Lists, heads: seq<int>, pg: seq<Page>)
    requires Inv(b, m, lists, heads, pg, h) && IsFree(b0, h, k) && b == SetFree(b0, h, false)
    ensures IsUsed(b, h, k) && Allocates(b0, b, h, k) && forall j :: !IsUsed(b0, h, j)
  {
    hide Inv, Tiled, Allocates;
    AllTiled(b, m, lists, heads, pg, h);
    SetFreeTiled(b, m, h, true);
    assert SetFree(b, h, true) == b0;
    TakeEffect(b0, m, h);
  }

  lemma InFlightBound(b: Blocks, m: set<nat>, lists: Lists, heads: seq<int>, pg: seq<Page>, h: nat, k: nat)
    requires Inv(b, m, lists, heads, pg, h) && IsUsed(b, h, k)
    ensures h < |pg| && h in m
  {
  }

  lemma FreeReady(b: Blocks, m: set<nat>, lists: Lists, heads: seq<int>, pg: seq<Page>, h: nat, k: nat)
    requires Inv(b, m, lists, heads, pg, NIL) && IsUsed(b, h, k)
    ensures h < |pg| && h in m && k < MAX_ORDER && Inv(b, m, lists, heads, pg, h) && Freeing(b, b, h, k, h, k)
  {
    FreeingStart(b, m, h);
  }

  /** Writing the marks of the block in flight. */
  lemma Remark(b: Blocks, m: set<nat>, lists: Lists, heads: seq<int>, pg: seq<Page>, h: nat, cell: Page)
    requires Inv(b, m, lists, heads, pg, h) && h < |pg| && h in m
    requires cell.next == pg[h].next && cell.prev == pg[h].prev
    ensures Inv(b, m, lists, heads, pg[h := cell], h)
  {
    hide Inv;
    RemarkInv(b, m, lists, heads, pg, pg[h := cell], h);
  }

  lemma MergeReady(b0: Blocks, b: Blocks, m: set<nat>, lists: Lists, heads: seq<int>, pg: seq<Page>, h0: nat, k0: nat, h: nat, k: nat)
    requires Inv(b, m, lists, heads, pg, h) && k + 1 < MAX_ORDER && IsUsed(b, h, k)
    requires IsFree(b, Flip(h, k), k) && Freeing(b0, b, h0, k0, h, k)
    ensures |lists| == |heads| == MAX_ORDER
    ensures var lo, b' := if Flip(h, k) < h then Flip(h, k) else h, Absorbed(b, h, k);
            Freeing(b0, b', h0, k0, lo, k + 1) && IsUsed(b', lo, k + 1)
  {
    AbsorbFreeing(b0, b, m, h0, k0, h, k);
    AbsorbKeeps(b, m, h, k);
  }

  lemma SplitReady(b: Blocks, m: set<nat>, lists: Lists, heads: seq<int>, pg: seq<Page>, h: nat, k: nat, u: nat, b0: Blocks)
    requires Inv(b, m, lists, heads, pg, h) && IsUsed(b, h, k + 1) && u == h + Pow2(k)
    requires Allocates(b0, b, h, k + 1) && forall j :: !IsUsed(b0, h, j)
    ensures |lists| == MAX_ORDER > k && u < |pg| && u == Flip(h, k) && IsUsed(SplitBlock(b, h), h, k) && Allocates(b0, SplitBlock(b, h), h, k)
  {
    SplitFacts(b, m, h, k, u);
    SplitEffect(b0, b, m, h);
  }
}
