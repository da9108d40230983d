/** Giving back the blocks of an inode (`ext2_free_indirect_tree` and `ext2_truncate_blocks` to size 0, kernel/vfs/ext2.c). */
module Ext2Truncate {
  import opened Ext2Tree
  import opened Ext2Bitmap
  import opened Ext2File
  import opened Sequences

  /** Place `q` is `a` or lies below it. */
  predicate Below(q: Place, a: Place) {
    q == a || (q.Child? && Below(q.up, a))
  }

  /** Place `q`, at or below `a`, names block `b`. */
  ghost predicate Names(disk: Disk, roots: seq<nat>, ptrs: nat, a: Place, q: Place, b: nat) {
    IsPlace(q, ptrs) && Below(q, a) && Ptr(disk, roots, q) == b != 0
  }

  /** Block `b` is reached at or below place `a`. */
  ghost predicate Under(disk: Disk, roots: seq<nat>, ptrs: nat, a: Place, b: nat) {
    exists q :: Names(disk, roots, ptrs, a, q, b)
  }

  lemma {:induction false} BelowLevel(q: Place, a: Place, ptrs: nat)
    requires Below(q, a) && IsPlace(q, ptrs)
    ensures Level(q) <= Level(a) && (q != a ==> Level(q) < Level(a))
  {
    if q != a {
      BelowLevel(q.up, a, ptrs);
    }
  }

  lemma {:induction false} BelowZero(disk: Disk, roots: seq<nat>, q: Place, a: Place)
    requires Below(q, a) && Ptr(disk, roots, a) == 0
    ensures Ptr(disk, roots, q) == 0
  {
    if q != a {
      BelowZero(disk, roots, q.up, a);
    }
  }

  lemma NoneUnder(disk: Disk, roots: seq<nat>, ptrs: nat, a: Place, b: nat)
    requires Ptr(disk, roots, a) == 0
    ensures !Under(disk, roots, ptrs, a, b)
  {
    forall q | Below(q, a) ensures Ptr(disk, roots, q) == 0 { BelowZero(disk, roots, q, a); }
  }

  lemma LeafUnder(disk: Disk, roots: seq<nat>, ptrs: nat, a: Place, b: nat)
    requires IsPlace(a, ptrs) && Level(a) == 0 && Ptr(disk, roots, a) != 0
    ensures Under(disk, roots, ptrs, a, b) <==> b == Ptr(disk, roots, a)
  {
    assert Names(disk, roots, ptrs, a, a, Ptr(disk, roots, a));
    forall q | Names(disk, roots, ptrs, a, q, b) ensures q == a {
      LeafOnly(q, a, ptrs);
    }
  }

  lemma LeafOnly(q: Place, a: Place, ptrs: nat)
    requires Below(q, a) && IsPlace(q, ptrs) && Level(a) == 0
    ensures q == a
  {
    if q != a {
      BelowLevel(q.up, a, ptrs);
    }
  }

  /** The child of `a` on the way to a place below it. */
  lemma {:induction false} ChildTowards(q: Place, a: Place, ptrs: nat) returns (j: nat)
    requires Below(q, a) && q != a && IsPlace(q, ptrs)
    ensures j < ptrs && Below(q, Child(a, j))
  {
    if q.up == a {
      j := q.j;
    } else {
      j := ChildTowards(q.up, a, ptrs);
    }
  }

  lemma {:induction false} BelowUp(q: Place, a: Place, j: nat)
    requires Below(q, Child(a, j))
    ensures Below(q, a)
  {
    if q != Child(a, j) {
      BelowUp(q.up, a, j);
    }
  }

  lemma {:induction false} BelowOne(q: Place, a: Place, i: nat, j: nat, ptrs: nat)
    requires Below(q, Child(a, i)) && Below(q, Child(a, j)) && IsPlace(q, ptrs)
    ensures i == j && q != a
  {
    if q == Child(a, i) || q == Child(a, j) {
      BelowLevel(q, Child(a, i), ptrs);
      BelowLevel(q, Child(a, j), ptrs);
    } else {
      BelowOne(q.up, a, i, j, ptrs);
      BelowLevel(q, Child(a, i), ptrs);
    }
  }

  /** Some child of `a` before the `n`-th reaches block `b`. */
  ghost predicate UnderSome(disk: Disk, roots: seq<nat>, ptrs: nat, a: Place, n: nat, b: nat) {
    exists j: nat :: j < n && Under(disk, roots, ptrs, Child(a, j), b)
  }

  lemma NodeUnder(disk: Disk, roots: seq<nat>, ptrs: nat, a: Place, b: nat)
    requires IsPlace(a, ptrs) && Level(a) > 0 && Ptr(disk, roots, a) != 0
    ensures Under(disk, roots, ptrs, a, b) <==> b == Ptr(disk, roots, a) || UnderSome(disk, roots, ptrs, a, ptrs, b)
  {
    assert Names(disk, roots, ptrs, a, a, Ptr(disk, roots, a));
    if Under(disk, roots, ptrs, a, b) && b != Ptr(disk, roots, a) {
      var q :| Names(disk, roots, ptrs, a, q, b);
      var j := ChildTowards(q, a, ptrs);
      assert Names(disk, roots, ptrs, Child(a, j), q, b);
      assert Under(disk, roots, ptrs, Child(a, j), b);
    }
    if UnderSome(disk, roots, ptrs, a, ptrs, b) {
      var j: nat :| j < ptrs && Under(disk, roots, ptrs, Child(a, j), b);
      var q :| Names(disk, roots, ptrs, Child(a, j), q, b);
      BelowUp(q, a, j);
      assert Names(disk, roots, ptrs, a, q, b);
    }
  }

  /** A block is reached below one child only, and never the block that holds the children. */
  lemma UnderOne(disk: Disk, roots: seq<nat>, ptrs: nat, a: Place, i: nat, j: nat, b: nat)
    requires Once(disk, roots, ptrs) && IsPlace(a, ptrs)
    requires Under(disk, roots, ptrs, Child(a, i), b) && Under(disk, roots, ptrs, Child(a, j), b)
    ensures i == j && b != Ptr(disk, roots, a)
  {
    var q :| Names(disk, roots, ptrs, Child(a, i), q, b);
    var r :| Names(disk, roots, ptrs, Child(a, j), r, b);
    assert q == r;
    BelowOne(q, a, i, j, ptrs);
  }

  // ----- what has been given back -----

  /** `s` lists exactly the blocks reached at or below `a`, each once. */
  ghost predicate Lists(disk: Disk, roots: seq<nat>, ptrs: nat, a: Place, s: seq<nat>) {
    NoDup(s) && forall b :: b in s <==> Under(disk, roots, ptrs, a, b)
  }

  ghost predicate ListsSome(disk: Disk, roots: seq<nat>, ptrs: nat, a: Place, n: nat, s: seq<nat>) {
    NoDup(s) && forall b :: b in s <==> UnderSome(disk, roots, ptrs, a, n, b)
  }

  lemma ListsNext(disk: Disk, roots: seq<nat>, ptrs: nat, a: Place, n: nat, s: seq<nat>, t: seq<nat>)
    requires Once(disk, roots, ptrs) && IsPlace(a, ptrs)
    requires ListsSome(disk, roots, ptrs, a, n, s) && Lists(disk, roots, ptrs, Child(a, n), t)
    ensures ListsSome(disk, roots, ptrs, a, n + 1, s + t)
  {
    hide Under, Once;
    forall b | b in s && b in t ensures false {
      var j: nat :| j < n && Under(disk, roots, ptrs, Child(a, j), b);
      UnderOne(disk, roots, ptrs, a, j, n, b);
    }
    JoinNoDup(s, t);
    forall b ensures b in s + t <==> UnderSome(disk, roots, ptrs, a, n + 1, b) {
      if UnderSome(disk, roots, ptrs, a, n + 1, b) {
        var j: nat :| j < n + 1 && Under(disk, roots, ptrs, Child(a, j), b);
      }
    }
  }

  lemma ListsNode(disk: Disk, roots: seq<nat>, ptrs: nat, a: Place, s: seq<nat>)
    requires Once(disk, roots, ptrs) && IsPlace(a, ptrs) && Level(a) > 0 && Ptr(disk, roots, a) != 0
    requires ListsSome(disk, roots, ptrs, a, ptrs, s)
    ensures Lists(disk, roots, ptrs, a, s + [Ptr(disk, roots, a)])
  {
    hide Under, Once;
    var block := Ptr(disk, roots, a);
    forall b | b in s && b in [block] ensures false {
      var j: nat :| j < ptrs && Under(disk, roots, ptrs, Child(a, j), b);
      UnderOne(disk, roots, ptrs, a, j, j, b);
    }
    JoinNoDup(s, [block]);
    forall b ensures b in s + [block] <==> Under(disk, roots, ptrs, a, b) {
      NodeUnder(disk, roots, ptrs, a, b);
    }
  }

  lemma ListsLeaf(disk: Disk, roots: seq<nat>, ptrs: nat, a: Place)
    requires IsPlace(a, ptrs) && Level(a) == 0 && Ptr(disk, roots, a) != 0
    ensures Lists(disk, roots, ptrs, a, [Ptr(disk, roots, a)])
  {
    hide Under;
    forall b ensures b in [Ptr(disk, roots, a)] <==> Under(disk, roots, ptrs, a, b) {
      LeafUnder(disk, roots, ptrs, a, b);
    }
  }

  lemma ListsNone(disk: Disk, roots: seq<nat>, ptrs: nat, a: Place)
    requires Ptr(disk, roots, a) == 0
    ensures Lists(disk, roots, ptrs, a, [])
  {
    hide Under;
    forall b ensures !Under(disk, roots, ptrs, a, b) {
      NoneUnder(disk, roots, ptrs, a, b);
    }
  }

  /** The bits of exactly the blocks in `s` have been cleared. */
  ghost predicate Cleared(groups: seq<Group>, groups': seq<Group>, perGroup: nat, s: seq<nat>) {
    && perGroup > 0 && Counted(groups, perGroup) && Counted(groups', perGroup)
    && forall b: nat :: Bit(groups', perGroup, b) <==> Bit(groups, perGroup, b) && b !in s
  }

  lemma ClearedAfter(g0: seq<Group>, g1: seq<Group>, g2: seq<Group>, perGroup: nat, s: seq<nat>, t: seq<nat>)
    requires Cleared(g0, g1, perGroup, s) && Cleared(g1, g2, perGroup, t)
    ensures Cleared(g0, g2, perGroup, s + t)
  {
    hide Bit, Counted;
  }

  /** `ext2_free_block_chain` on a block of the volume. */
  method Release(volume: Volume, block: nat)
    requires volume.Valid() && 0 < block < volume.count
    modifies volume
    ensures volume.Valid() && volume.released == old(volume.released) + [block]
    ensures Cleared(old(volume.groups), volume.groups, volume.perGroup, [block])
  {
    InGroup(volume.count, volume.perGroup, |volume.groups|, block);
    hide Bit, Counted;
    volume.Free(block);
    forall b: nat ensures Bit(volume.groups, volume.perGroup, b) <==> Bit(old(volume.groups), volume.perGroup, b) && b !in [block] {
      assert volume.Used(b) <==> old(volume.Used(b)) && b != block;
    }
  }

  lemma InGroup(count: nat, perGroup: nat, groups: nat, block: nat)
    requires perGroup > 0 && groups == (count + perGroup - 1) / perGroup && block < count
    ensures block / perGroup < groups
  {
    Reach(count, perGroup, groups);
    DivUnder(block, perGroup, groups);
  }

  /** `ext2_free_indirect_tree`: everything at or below the place, the index blocks after what they hold. */
  method FreeTree(fs: FileSystem, ghost roots: seq<nat>, ghost a: Place, block: nat, depth: nat) returns (ghost freed: seq<nat>)
    requires fs.Valid() && Tree(fs.disk, roots, fs.ptrs, fs.volume.count)
    requires IsPlace(a, fs.ptrs) && Level(a) == depth && Ptr(fs.disk, roots, a) == block
    modifies fs.volume
    ensures fs.Valid() && fs.volume.released == old(fs.volume.released) + freed
    ensures Lists(fs.disk, roots, fs.ptrs, a, freed)
    ensures Cleared(old(fs.volume.groups), fs.volume.groups, fs.volume.perGroup, freed)
    decreases depth
  {
    hide Tree, Ptr, Lists, ListsSome, IsPlace, Cleared, Counted;
    if block == 0 {
      ListsNone(fs.disk, roots, fs.ptrs, a);
      ClearedNone(fs.volume.groups, fs.volume.perGroup);
      return [];
    }
    BlockInRange(fs.disk, roots, fs.ptrs, fs.volume.count, a);
    if depth == 0 {
      ListsLeaf(fs.disk, roots, fs.ptrs, a);
      Release(fs.volume, block);
      return [block];
    }
    var ok, words := fs.ReadBlock(block);
    freed := [];
    SomeNone(fs.disk, roots, fs.ptrs, a);
    ClearedNone(fs.volume.groups, fs.volume.perGroup);
    for i := 0 to fs.ptrs
      invariant fs.Valid() && fs.volume.released == old(fs.volume.released) + freed
      invariant ListsSome(fs.disk, roots, fs.ptrs, a, i, freed)
      invariant Cleared(old(fs.volume.groups), fs.volume.groups, fs.volume.perGroup, freed)
    {
      EntryFacts(fs.disk, roots, fs.ptrs, fs.volume.count, a, i);
      ghost var groups1 := fs.volume.groups;
      if words[i] != 0 {
        ghost var more := FreeTree(fs, roots, Child(a, i), words[i], depth - 1);
        ClearedAfter(old(fs.volume.groups), groups1, fs.volume.groups, fs.volume.perGroup, freed, more);
        ListsMore(fs.disk, roots, fs.ptrs, fs.volume.count, a, i, freed, more);
        freed := freed + more;
      } else {
        ListsNone(fs.disk, roots, fs.ptrs, Child(a, i));
        ListsMore(fs.disk, roots, fs.ptrs, fs.volume.count, a, i, freed, []);
        assert freed + [] == freed;
      }
    }
    ghost var groups2 := fs.volume.groups;
    Release(fs.volume, block);
    ClearedAfter(old(fs.volume.groups), groups2, fs.volume.groups, fs.volume.perGroup, freed, [block]);
    ListsWhole(fs.disk, roots, fs.ptrs, fs.volume.count, a, freed);
    freed := freed + [block];
  }

  lemma ClearedNone(groups: seq<Group>, perGroup: nat)
    requires perGroup > 0 && Counted(groups, perGroup)
    ensures Cleared(groups, groups, perGroup, [])
  {
  }

  lemma BlockInRange(disk: Disk, roots: seq<nat>, ptrs: nat, count: nat, a: Place)
    requires Tree(disk, roots, ptrs, count) && IsPlace(a, ptrs) && Ptr(disk, roots, a) != 0
    ensures var b := Ptr(disk, roots, a); b < count && b in disk && |disk[b]| == ptrs
  {
  }

  lemma SomeNone(disk: Disk, roots: seq<nat>, ptrs: nat, a: Place)
    ensures ListsSome(disk, roots, ptrs, a, 0, [])
  {
  }

  lemma ListsMore(disk: Disk, roots: seq<nat>, ptrs: nat, count: nat, a: Place, n: nat, s: seq<nat>, t: seq<nat>)
    requires Tree(disk, roots, ptrs, count) && IsPlace(a, ptrs)
    requires ListsSome(disk, roots, ptrs, a, n, s) && Lists(disk, roots, ptrs, Child(a, n), t)
    ensures ListsSome(disk, roots, ptrs, a, n + 1, s + t)
  {
    ListsNext(disk, roots, ptrs, a, n, s, t);
  }

  lemma ListsWhole(disk: Disk, roots: seq<nat>, ptrs: nat, count: nat, a: Place, s: seq<nat>)
    requires Tree(disk, roots, ptrs, count) && IsPlace(a, ptrs) && Level(a) > 0 && Ptr(disk, roots, a) != 0
    requires ListsSome(disk, roots, ptrs, a, ptrs, s)
    ensures Lists(disk, roots, ptrs, a, s + [Ptr(disk, roots, a)])
  {
    ListsNode(disk, roots, ptrs, a, s);
  }

  // ----- truncation to size 0 -----

  /** `old_blocks`, computed in 32 bits. */
  function OldBlocks(size: nat, ptrs: nat): nat
    requires ptrs > 0
  {
    (size + 4 * ptrs - 1) % 0x1_0000_0000 / (4 * ptrs)
  }

  /** The slots a truncation to 0 looks at, given `old_blocks`. */
  predicate Covered(k: nat, blocks: nat, ptrs: nat) {
    if k < 12 then k < blocks
    else if k == 12 then blocks > 12
    else if k == 13 then blocks > 12 + ptrs
    else k == 14 && blocks > 12 + ptrs + Square(ptrs)
  }

  /** Some slot before the `n`-th that is covered reaches block `b`. */
  ghost predicate UnderSlots(disk: Disk, roots: seq<nat>, ptrs: nat, blocks: nat, n: nat, b: nat) {
    exists k: nat :: k < n && Covered(k, blocks, ptrs) && Under(disk, roots, ptrs, Slot(k), b)
  }

  ghost predicate ListsSlots(disk: Disk, roots: seq<nat>, ptrs: nat, blocks: nat, n: nat, s: seq<nat>) {
    NoDup(s) && forall b :: b in s <==> UnderSlots(disk, roots, ptrs, blocks, n, b)
  }

  lemma {:induction false} BelowSlot(q: Place, k: nat, l: nat)
    requires Below(q, Slot(k)) && Below(q, Slot(l))
    ensures k == l
  {
    if q.Child? {
      BelowSlot(q.up, k, l);
    }
  }

  /** A block is reached through one slot only. */
  lemma UnderOneSlot(disk: Disk, roots: seq<nat>, ptrs: nat, k: nat, l: nat, b: nat)
    requires Once(disk, roots, ptrs) && Under(disk, roots, ptrs, Slot(k), b) && Under(disk, roots, ptrs, Slot(l), b)
    ensures k == l
  {
    var q :| Names(disk, roots, ptrs, Slot(k), q, b);
    var r :| Names(disk, roots, ptrs, Slot(l), r, b);
    assert q == r;
    BelowSlot(q, k, l);
  }

  lemma ListsSlot(disk: Disk, roots: seq<nat>, ptrs: nat, count: nat, blocks: nat, n: nat, s: seq<nat>, t: seq<nat>)
    requires Tree(disk, roots, ptrs, count) && ListsSlots(disk, roots, ptrs, blocks, n, s)
    requires if Covered(n, blocks, ptrs) then Lists(disk, roots, ptrs, Slot(n), t) else t == []
    ensures ListsSlots(disk, roots, ptrs, blocks, n + 1, s + t)
  {
    hide Under, Once, Covered;
    forall b | b in s && b in t ensures false {
      var k: nat :| k < n && Covered(k, blocks, ptrs) && Under(disk, roots, ptrs, Slot(k), b);
      UnderOneSlot(disk, roots, ptrs, k, n, b);
    }
    JoinNoDup(s, t);
    forall b ensures b in s + t <==> UnderSlots(disk, roots, ptrs, blocks, n + 1, b) {
      if UnderSlots(disk, roots, ptrs, blocks, n + 1, b) {
        var k: nat :| k < n + 1 && Covered(k, blocks, ptrs) && Under(disk, roots, ptrs, Slot(k), b);
      }
    }
  }

  /** One slot of the inode, with what is below it. */
  method FreeSlot(fs: FileSystem, inode: Inode, ghost roots: seq<nat>, k: nat, blocks: nat, ghost s: seq<nat>) returns (ghost freed: seq<nat>)
    requires fs.Valid() && Tree(fs.disk, roots, fs.ptrs, fs.volume.count) && k < 15 && |inode.blocks| == 15 && inode.blocks[k] == roots[k]
    requires ListsSlots(fs.disk, roots, fs.ptrs, blocks, k, s) && Covered(k, blocks, fs.ptrs)
    modifies fs.volume, inode`blocks
    ensures fs.Valid() && inode.blocks == old(inode.blocks)[k := 0]
    ensures fs.volume.released == old(fs.volume.released) + freed && ListsSlots(fs.disk, roots, fs.ptrs, blocks, k + 1, s + freed)
    ensures Cleared(old(fs.volume.groups), fs.volume.groups, fs.volume.perGroup, freed)
  {
    SlotPtr(fs.disk, roots, k);
    hide Tree, Ptr, Lists, ListsSlots, Cleared, Covered;
    freed := FreeTree(fs, roots, Slot(k), inode.blocks[k], if k < 12 then 0 else k - 11);
    inode.blocks := inode.blocks[k := 0];
    ListsSlot(fs.disk, roots, fs.ptrs, fs.volume.count, blocks, k, s, freed);
  }

  /** The state after the first `k` slots have been looked at. */
  ghost predicate Progress(fs: FileSystem, inode: Inode, roots: seq<nat>, groups: seq<Group>, released: seq<nat>, blocks: nat, k: nat, s: seq<nat>)
    reads fs, fs.volume, inode
  {
    && fs.Valid() && |inode.blocks| == 15 == |roots| && fs.volume.released == released + s
    && ListsSlots(fs.disk, roots, fs.ptrs, blocks, k, s) && Cleared(groups, fs.volume.groups, fs.volume.perGroup, s)
    && forall i :: 0 <= i < 15 ==> inode.blocks[i] == if i < k && Covered(i, blocks, fs.ptrs) then 0 else roots[i]
  }

  /** One slot further, freed or passed over. */
  method NextSlot(fs: FileSystem, inode: Inode, ghost roots: seq<nat>, ghost groups: seq<Group>, ghost released: seq<nat>, k: nat, blocks: nat, ghost s: seq<nat>)
    returns (ghost s': seq<nat>)
    requires Tree(fs.disk, roots, fs.ptrs, fs.volume.count) && k < 15 && Progress(fs, inode, roots, groups, released, blocks, k, s)
    modifies fs.volume, inode`blocks
    ensures Progress(fs, inode, roots, groups, released, blocks, k + 1, s')
  {
    hide Tree, ListsSlots, Cleared;
    if Covered(k, blocks, fs.ptrs) {
      ghost var groups1 := fs.volume.groups;
      ghost var freed := FreeSlot(fs, inode, roots, k, blocks, s);
      ClearedAfter(groups, groups1, fs.volume.groups, fs.volume.perGroup, s, freed);
      s' := s + freed;
    } else {
      ListsSlot(fs.disk, roots, fs.ptrs, fs.volume.count, blocks, k, s, []);
      s' := s;
      assert s + [] == s;
    }
  }

  /** `ext2_truncate_blocks` with `new_size` 0: exactly what the covered slots reach is given back, each block once. */
  method Truncate(fs: FileSystem, inode: Inode) returns (ghost freed: seq<nat>)
    requires fs.Valid() && fs.Rooted(fs.disk, inode.blocks)
    modifies fs.volume, inode
    ensures fs.Valid() && inode.size == 0 && fs.volume.released == old(fs.volume.released) + freed
    ensures ListsSlots(fs.disk, old(inode.blocks), fs.ptrs, OldBlocks(old(inode.size), fs.ptrs), 15, freed)
    ensures Cleared(old(fs.volume.groups), fs.volume.groups, fs.volume.perGroup, freed)
    ensures |inode.blocks| == 15 == |old(inode.blocks)| && forall k :: 0 <= k < 15 ==>
      inode.blocks[k] == if Covered(k, OldBlocks(old(inode.size), fs.ptrs), fs.ptrs) then 0 else old(inode.blocks)[k]
  {
    var ptrs := fs.ptrs;
    var blocks := OldBlocks(inode.size, ptrs);
    ghost var roots, groups, released := inode.blocks, fs.volume.groups, fs.volume.released;
    freed := [];
    NoneYet(fs.disk, roots, ptrs, blocks);
    ClearedNone(fs.volume.groups, fs.volume.perGroup);
    hide Tree, ListsSlots, Cleared, Marked, OldBlocks;
    for i := 0 to 12
      invariant Progress(fs, inode, roots, groups, released, blocks, i, freed)
    {
      freed := NextSlot(fs, inode, roots, groups, released, i, blocks, freed);
    }
    freed := NextSlot(fs, inode, roots, groups, released, 12, blocks, freed);
    freed := NextSlot(fs, inode, roots, groups, released, 13, blocks, freed);
    freed := NextSlot(fs, inode, roots, groups, released, 14, blocks, freed);
    inode.size := 0;
  }

  lemma NoneYet(disk: Disk, roots: seq<nat>, ptrs: nat, blocks: nat)
    ensures ListsSlots(disk, roots, ptrs, blocks, 0, [])
  {
  }

  /** Every block the inode reaches is in `s`. */
  ghost predicate AllListed(disk: Disk, roots: seq<nat>, ptrs: nat, s: seq<nat>) {
    forall p :: IsPlace(p, ptrs) && Ptr(disk, roots, p) != 0 ==> Ptr(disk, roots, p) in s
  }

  ghost predicate AllCovered(roots: seq<nat>, blocks: nat, ptrs: nat) {
    forall k: nat :: k < |roots| && roots[k] != 0 ==> Covered(k, blocks, ptrs)
  }

  /** Every block of the inode is given back exactly when no slot beyond `old_blocks` is in use. */
  lemma AllFreedIff(disk: Disk, roots: seq<nat>, ptrs: nat, count: nat, blocks: nat, s: seq<nat>)
    requires Tree(disk, roots, ptrs, count) && ListsSlots(disk, roots, ptrs, blocks, 15, s)
    ensures AllListed(disk, roots, ptrs, s) <==> AllCovered(roots, blocks, ptrs)
  {
    if AllCovered(roots, blocks, ptrs) {
      forall p | IsPlace(p, ptrs) && Ptr(disk, roots, p) != 0 ensures Ptr(disk, roots, p) in s {
        var k := SlotAbove(disk, roots, p, ptrs);
        assert Names(disk, roots, ptrs, Slot(k), p, Ptr(disk, roots, p));
        assert Under(disk, roots, ptrs, Slot(k), Ptr(disk, roots, p)) && Covered(k, blocks, ptrs);
        assert UnderSlots(disk, roots, ptrs, blocks, 15, Ptr(disk, roots, p));
      }
    }
    if AllListed(disk, roots, ptrs, s) {
      forall k: nat | k < |roots| && roots[k] != 0 ensures Covered(k, blocks, ptrs) {
        SlotInUse(disk, roots, ptrs, count, blocks, s, k);
      }
    }
  }

  lemma SlotInUse(disk: Disk, roots: seq<nat>, ptrs: nat, count: nat, blocks: nat, s: seq<nat>, k: nat)
    requires Tree(disk, roots, ptrs, count) && ListsSlots(disk, roots, ptrs, blocks, 15, s) && k < 15 && roots[k] != 0
    requires AllListed(disk, roots, ptrs, s)
    ensures Covered(k, blocks, ptrs)
  {
    var b := roots[k];
    assert IsPlace(Slot(k), ptrs) && Ptr(disk, roots, Slot(k)) == b;
    assert Names(disk, roots, ptrs, Slot(k), Slot(k), b);
    var l: nat :| l < 15 && Covered(l, blocks, ptrs) && Under(disk, roots, ptrs, Slot(l), b);
    UnderOneSlot(disk, roots, ptrs, k, l, b);
  }

  lemma {:induction false} SlotAbove(disk: Disk, roots: seq<nat>, p: Place, ptrs: nat) returns (k: nat)
    requires IsPlace(p, ptrs) && |roots| == 15 && Ptr(disk, roots, p) != 0
    ensures k < 15 && Below(p, Slot(k)) && roots[k] != 0
  {
    if p.Slot? {
      k := p.k;
    } else {
      k := SlotAbove(disk, roots, p.up, ptrs);
    }
  }

  /** The slot of every file block below `old_blocks` is covered. */
  lemma CoveredBelow(index: nat, blocks: nat, ptrs: nat)
    requires index < blocks && InFile(index, ptrs)
    ensures Covered(SlotOf(index, ptrs), blocks, ptrs)
  {
  }

  /** `old_blocks` covers the whole size exactly when the rounding does not overflow 32 bits. */
  lemma OldBlocksExactIff(size: nat, ptrs: nat)
    requires 0 < ptrs <= 1024 && size < 0x1_0000_0000
    ensures OldBlocks(size, ptrs) * (4 * ptrs) >= size <==> size + 4 * ptrs - 1 < 0x1_0000_0000
  {
    var bs := 4 * ptrs;
    var x := (size + bs - 1) % 0x1_0000_0000;
    assert x == x / bs * bs + x % bs;
  }

  /** A file of the largest size: nothing at all is given back. */
  lemma OldBlocksWrap()
    ensures OldBlocks(0xFFFF_FFFF, 1024) == 0 && forall k :: !Covered(k, OldBlocks(0xFFFF_FFFF, 1024), 1024)
  {
  }

  /** Every slot in use leads to a data block that starts below the size of the file. */
  ghost predicate WithinSize(disk: Disk, roots: seq<nat>, ptrs: nat, size: nat)
    requires ptrs > 0
  {
    forall k: nat :: k < |roots| && roots[k] != 0 ==>
      exists index: nat :: InFile(index, ptrs) && SlotOf(index, ptrs) == k && Ptr(disk, roots, PlaceOf(index, ptrs)) != 0
        && StartsBelow(index, ptrs, size)
  }

  predicate StartsBelow(index: nat, ptrs: nat, size: nat) {
    index * (4 * ptrs) < size
  }

  lemma StartsCovered(index: nat, ptrs: nat, size: nat)
    requires 0 < ptrs <= 1024 && size < 0x1_0000_0000 && StartsBelow(index, ptrs, size) && size + 4 * ptrs - 1 < 0x1_0000_0000
    ensures index < OldBlocks(size, ptrs)
  {
    var bs, n := 4 * ptrs, OldBlocks(size, ptrs);
    OldBlocksExactIff(size, ptrs);
    hide OldBlocks;
    assert index >= n ==> index * bs >= n * bs;
  }

  lemma WrapsToNone(ptrs: nat, size: nat)
    requires 0 < ptrs <= 1024 && size < 0x1_0000_0000 <= size + 4 * ptrs - 1
    ensures OldBlocks(size, ptrs) == 0
  {
    assert (size + 4 * ptrs - 1) % 0x1_0000_0000 == size + 4 * ptrs - 1 - 0x1_0000_0000 < 4 * ptrs;
  }

  /** Truncating a file that has blocks, all of them below its size, gives back every block it reaches, each once,
      exactly when rounding the size up to whole blocks does not overflow 32 bits. */
  lemma TruncatesAllIff(disk: Disk, roots: seq<nat>, ptrs: nat, count: nat, size: nat, freed: seq<nat>)
    requires Tree(disk, roots, ptrs, count) && 0 < ptrs <= 1024 && size < 0x1_0000_0000
    requires WithinSize(disk, roots, ptrs, size) && exists k: nat :: k < |roots| && roots[k] != 0
    requires ListsSlots(disk, roots, ptrs, OldBlocks(size, ptrs), 15, freed)
    ensures NoDup(freed) && (AllListed(disk, roots, ptrs, freed) <==> size + 4 * ptrs - 1 < 0x1_0000_0000)
  {
    AllFreedIff(disk, roots, ptrs, count, OldBlocks(size, ptrs), freed);
    hide Tree, OldBlocks, PlaceOf, StartsBelow, SlotOf, InFile;
    if size + 4 * ptrs - 1 < 0x1_0000_0000 {
      forall k: nat | k < |roots| && roots[k] != 0 ensures Covered(k, OldBlocks(size, ptrs), ptrs) {
        var index: nat :| InFile(index, ptrs) && SlotOf(index, ptrs) == k && Ptr(disk, roots, PlaceOf(index, ptrs)) != 0
          && StartsBelow(index, ptrs, size);
        StartsCovered(index, ptrs, size);
        CoveredBelow(index, OldBlocks(size, ptrs), ptrs);
      }
    } else {
      WrapsToNone(ptrs, size);
      var k: nat :| k < |roots| && roots[k] != 0;
      assert !Covered(k, OldBlocks(size, ptrs), ptrs);
    }
  }
}
