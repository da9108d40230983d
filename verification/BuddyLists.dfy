/** The page array of the frame allocator and the doubly linked free lists threaded through it. */
module BuddyLists {
  import opened BuddyArith
  import opened BuddyTiling
  import opened Sequences

  /** The null pointer among page indices. */
  const NIL := -1

  /** The fields of `struct page` the allocator uses; `next` and `prev` are page indices or `NIL`. */
  datatype Page = Page(next: int, prev: int, refCount: nat, order: nat, isFree: bool)

  /** `head` starts the doubly linked list `l`. */
  ghost predicate Threaded(head: int, l: seq<nat>, pg: seq<Page>) {
    && NoDup(l)
    && head == (if l == [] then NIL else l[0])
    && (forall i :: 0 <= i < |l| ==> l[i] < |pg|)
    && (forall i {:trigger pg[l[i]].next} :: 0 <= i < |l| ==> pg[l[i]].next == if i + 1 < |l| then l[i + 1] else NIL)
    && (forall i {:trigger pg[l[i]].prev} :: 0 <= i < |l| ==> pg[l[i]].prev == if i > 0 then l[i - 1] else NIL)
  }

  /** Only links may differ. */
  ghost predicate SameMarks(pg: seq<Page>, pg': seq<Page>) {
    && |pg| == |pg'|
    && forall p :: 0 <= p < |pg| ==>
         pg'[p].order == pg[p].order && pg'[p].isFree == pg[p].isFree && pg'[p].refCount == pg[p].refCount
  }

  // ----- add_to_list -----

  function Added(pg: seq<Page>, head: int, p: nat): seq<Page>
    requires p < |pg| && NIL <= head < |pg|
  {
    var pg1 := pg[p := pg[p].(next := head, prev := NIL)];
    if head == NIL then pg1 else pg1[head := pg1[head].(prev := p)]
  }

  lemma AddThreaded(head: int, l: seq<nat>, pg: seq<Page>, p: nat)
    requires Threaded(head, l, pg) && p < |pg| && p !in l
    ensures Threaded(p, [p] + l, Added(pg, head, p)) && SameMarks(pg, Added(pg, head, p))
  {
    var pg', l' := Added(pg, head, p), [p] + l;
    forall i | 0 <= i < |l'|
      ensures l'[i] < |pg'|
      ensures pg'[l'[i]].next == if i + 1 < |l'| then l'[i + 1] else NIL
      ensures pg'[l'[i]].prev == if i > 0 then l'[i - 1] else NIL
    {
      if i > 0 { assert l'[i] == l[i - 1]; }
    }
  }

  lemma AddOther(head: int, pg: seq<Page>, p: nat, head2: int, l2: seq<nat>)
    requires Threaded(head2, l2, pg) && p < |pg| && p !in l2 && NIL <= head < |pg| && (head >= 0 ==> head !in l2)
    ensures Threaded(head2, l2, Added(pg, head, p))
  {
    var pg' := Added(pg, head, p);
    assert forall i :: 0 <= i < |l2| ==> pg'[l2[i]] == pg[l2[i]];
  }

  // ----- remove_from_list -----

  function Removed(pg: seq<Page>, t: nat): seq<Page>
    requires t < |pg| && NIL <= pg[t].next < |pg| && NIL <= pg[t].prev < |pg|
  {
    var next, prev := pg[t].next, pg[t].prev;
    var pg1 := if prev != NIL then pg[prev := pg[prev].(next := next)] else pg;
    var pg2 := if next != NIL then pg1[next := pg1[next].(prev := prev)] else pg1;
    pg2[t := pg2[t].(next := NIL, prev := NIL)]
  }

  function RemovedHead(head: int, pg: seq<Page>, t: nat): int
    requires t < |pg|
  {
    if pg[t].prev != NIL then head else pg[t].next
  }

  lemma RemovedCell(pg: seq<Page>, t: nat, x: nat)
    requires t < |pg| && x < |pg| && x != t && NIL <= pg[t].next < |pg| && NIL <= pg[t].prev < |pg|
    ensures Removed(pg, t)[x] == pg[x].(next := if x == pg[t].prev then pg[t].next else pg[x].next,
                                        prev := if x == pg[t].next then pg[t].prev else pg[x].prev)
  {
  }

  /** The links of one remaining node after `l[k]` was taken out; `j` is its old position. */
  lemma RemovedLinks(head: int, l: seq<nat>, pg: seq<Page>, k: nat, j: nat)
    requires Threaded(head, l, pg) && k < |l| && j < |l| && j != k
    requires NIL <= pg[l[k]].next < |pg| && NIL <= pg[l[k]].prev < |pg|
    ensures Removed(pg, l[k])[l[j]].next ==
              if j + 1 == k then (if k + 1 < |l| then l[k + 1] else NIL) else if j + 1 < |l| then l[j + 1] else NIL
    ensures Removed(pg, l[k])[l[j]].prev ==
              if j == k + 1 then (if k > 0 then l[k - 1] else NIL) else if j > 0 then l[j - 1] else NIL
  {
    RemovedCell(pg, l[k], l[j]);
    assert pg[l[k]].next == (if k + 1 < |l| then l[k + 1] else NIL) && pg[l[k]].prev == (if k > 0 then l[k - 1] else NIL);
    assert pg[l[j]].next == (if j + 1 < |l| then l[j + 1] else NIL) && pg[l[j]].prev == (if j > 0 then l[j - 1] else NIL);
  }

  lemma RemovedMarks(pg: seq<Page>, t: nat)
    requires t < |pg| && NIL <= pg[t].next < |pg| && NIL <= pg[t].prev < |pg|
    ensures SameMarks(pg, Removed(pg, t))
  {
    forall x | 0 <= x < |pg| && x != t { RemovedCell(pg, t, x); }
  }

  lemma RemoveNoDup(l: seq<nat>, k: nat)
    requires NoDup(l) && k < |l|
    ensures var l' := l[..k] + l[k + 1..];
            NoDup(l') && l[k] !in l' && forall i :: 0 <= i < |l'| ==> l'[i] == l[if i < k then i else i + 1]
  {
    var l' := l[..k] + l[k + 1..];
    assert forall i :: 0 <= i < |l'| ==> l'[i] == l[if i < k then i else i + 1];
  }

  lemma RemoveThreaded(head: int, l: seq<nat>, pg: seq<Page>, k: nat)
    requires Threaded(head, l, pg) && k < |l|
    ensures NIL <= pg[l[k]].next < |pg| && NIL <= pg[l[k]].prev < |pg|
    ensures Threaded(RemovedHead(head, pg, l[k]), l[..k] + l[k + 1..], Removed(pg, l[k]))
    ensures SameMarks(pg, Removed(pg, l[k]))
  {
    Ends(head, l, pg, k);
    var l', pg' := l[..k] + l[k + 1..], Removed(pg, l[k]);
    assert |pg'| == |pg|;
    RemoveNoDup(l, k);
    RemovedMarks(pg, l[k]);
    assert forall i :: 0 <= i < |l| ==> l[i] < |pg|;
    hide Threaded, Removed, NoDup, SameMarks;
    forall i | 0 <= i < |l'|
      ensures pg'[l'[i]].next == if i + 1 < |l'| then l'[i + 1] else NIL
      ensures pg'[l'[i]].prev == if i > 0 then l'[i - 1] else NIL
    {
      RemovedLinks(head, l, pg, k, if i < k then i else i + 1);
    }
    MakeThreaded(RemovedHead(head, pg, l[k]), l', pg');
  }

  lemma Ends(head: int, l: seq<nat>, pg: seq<Page>, k: nat)
    requires Threaded(head, l, pg) && k < |l|
    ensures l[k] < |pg| && head == l[0]
    ensures pg[l[k]].next == (if k + 1 < |l| then l[k + 1] else NIL)
    ensures pg[l[k]].prev == (if k > 0 then l[k - 1] else NIL)
    ensures NIL <= pg[l[k]].next < |pg| && NIL <= pg[l[k]].prev < |pg|
  {
  }

  lemma MakeThreaded(head: int, l: seq<nat>, pg: seq<Page>)
    requires NoDup(l) && head == (if l == [] then NIL else l[0]) && forall i :: 0 <= i < |l| ==> l[i] < |pg|
    requires forall i :: 0 <= i < |l| ==> pg[l[i]].next == (if i + 1 < |l| then l[i + 1] else NIL)
    requires forall i :: 0 <= i < |l| ==> pg[l[i]].prev == (if i > 0 then l[i - 1] else NIL)
    ensures Threaded(head, l, pg)
  {
  }

  lemma RemoveOther(head: int, l: seq<nat>, pg: seq<Page>, k: nat, head2: int, l2: seq<nat>)
    requires Threaded(head, l, pg) && k < |l| && Threaded(head2, l2, pg)
    requires forall i :: 0 <= i < |l| ==> l[i] !in l2
    ensures NIL <= pg[l[k]].next < |pg| && NIL <= pg[l[k]].prev < |pg|
    ensures Threaded(head2, l2, Removed(pg, l[k]))
  {
    var t := l[k];
    var next, prev := pg[t].next, pg[t].prev;
    assert next == if k + 1 < |l| then l[k + 1] else NIL;
    assert prev == if k > 0 then l[k - 1] else NIL;
    var pg' := Removed(pg, t);
    assert forall i :: 0 <= i < |l2| ==> pg'[l2[i]] == pg[l2[i]];
  }

  // ----- all free lists -----

  type Lists = seq<seq<nat>>

  /** Every free list is threaded and holds exactly the free blocks of its order. */
  ghost predicate ListsHold(b: Blocks, lists: Lists, heads: seq<int>, pg: seq<Page>) {
    && |lists| == |heads| == MAX_ORDER
    && (forall k :: 0 <= k < MAX_ORDER ==> Threaded(heads[k], lists[k], pg))
    && (forall k, h :: 0 <= k < MAX_ORDER ==> (h in lists[k] <==> IsFree(b, h, k)))
  }

  lemma AddListsHold(b: Blocks, lists: Lists, heads: seq<int>, pg: seq<Page>, h: nat, b': Blocks)
    requires ListsHold(b, lists, heads, pg) && h < |pg|
    requires h in b' && b'[h].free && b'[h].order < MAX_ORDER
    requires forall k :: !IsFree(b, h, k)
    requires forall g, k :: g != h ==> (IsFree(b', g, k) <==> IsFree(b, g, k))
    ensures var k := b'[h].order;
            && NIL <= heads[k] < |pg|
            && ListsHold(b', lists[k := [h] + lists[k]], heads[k := h], Added(pg, heads[k], h))
            && SameMarks(pg, Added(pg, heads[k], h))
  {
    var k := b'[h].order;
    assert forall j :: 0 <= j < MAX_ORDER ==> h !in lists[j];
    AddThreaded(heads[k], lists[k], pg, h);
    var lists' := lists[k := [h] + lists[k]];
    forall j | 0 <= j < MAX_ORDER && j != k ensures Threaded(heads[j], lists[j], Added(pg, heads[k], h)) {
      assert heads[k] >= 0 ==> heads[k] in lists[k] && IsFree(b, heads[k], k) && !IsFree(b, heads[k], j);
      AddOther(heads[k], pg, h, heads[j], lists[j]);
    }
  }

  lemma RemoveListsHold(b: Blocks, lists: Lists, heads: seq<int>, pg: seq<Page>, h: nat, b': Blocks) returns (i: nat)
    requires ListsHold(b, lists, heads, pg) && h in b && b[h].free && b[h].order < MAX_ORDER
    requires forall k :: !IsFree(b', h, k)
    requires forall g, k :: g != h ==> (IsFree(b', g, k) <==> IsFree(b, g, k))
    ensures var k := b[h].order;
            && i < |lists[k]| && lists[k][i] == h && h < |pg|
            && NIL <= pg[h].next < |pg| && NIL <= pg[h].prev < |pg|
            && ListsHold(b', lists[k := lists[k][..i] + lists[k][i + 1..]], heads[k := RemovedHead(heads[k], pg, h)], Removed(pg, h))
            && SameMarks(pg, Removed(pg, h))
  {
    var k := b[h].order;
    assert IsFree(b, h, k);
    var l := lists[k];
    i :| 0 <= i < |l| && l[i] == h;
    RemoveThreaded(heads[k], l, pg, i);
    var l' := l[..i] + l[i + 1..];
    forall j | 0 <= j < MAX_ORDER && j != k ensures Threaded(heads[j], lists[j], Removed(pg, h)) {
      forall x | 0 <= x < |l| ensures l[x] !in lists[j] { assert l[x] in lists[k] && IsFree(b, l[x], k) && !IsFree(b, l[x], j); }
      RemoveOther(heads[k], l, pg, i, heads[j], lists[j]);
    }
    forall g ensures g in l' <==> IsFree(b', g, k) {
      if g == h {
        assert h !in l';
      } else {
        assert g in l' <==> g in l;
      }
    }
  }
}
