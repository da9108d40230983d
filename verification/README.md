# A verified model of the doppio kernel's core data structures and protocols

doppio is an x86-64 kernel written in C. This project models the parts of it whose correctness does not show in any
single function, and proves the properties that hold them together:

- the VMA index: a parent-pointer red-black tree of address ranges threaded by a doubly linked list, with insert, erase,
  the three finders, split, merge and range removal (`Vma*.dfy`);
- the buddy page allocator: free lists threaded through the page array, split and merge, and its initialisation from the
  memory map (`Buddy*.dfy`);
- four-level page tables with huge pages, table creation and reclamation, as a refinement of a flat map
  (`PageTable.dfy`, `PageMap.dfy`), and the copy-on-write protocol over all address spaces (`Cow.dfy`);
- ext2: the block bitmap, the pointer tree of an inode, truncation, and directory blocks in bytes (`Ext2*.dfy`);
- the write-back sector cache (`BlockCache.dfy`);
- the ticket lock, the sleeping mutex and the reader/writer semaphore (`TicketLock.dfy`, `Mutex.dfy`, `RwSemaphore.dfy`)
  and read-copy-update (`Rcu.dfy`, `RcuRuns.dfy`), as step protocols over every interleaving;
- the multilevel feedback scheduler (`RunQueues.dfy`, `Scheduler.dfy`) and the magazine allocator (`Magazines.dfy`,
  `Kmem.dfy`), whose calls are also modelled step by step (`MagazineSteps.dfy`);
- the files of the in-memory file system (`RamFile.dfy`).

Code that updates memory in place is modelled as classes and arrays with loops. Pointer structures carry ghost state (a
tree, a tiling, a map of owners) that the representation invariant ties to the real fields. A small step on the heap is
described by a relation over snapshots, and the consequences are proved as lemmas over values. Concurrent code is modelled
as a step function over a state, with one step for each critical section or atomic update, an invariant kept by every
step, and theorems about every run.

Some properties one would expect are not what the code does. Each has a counterexample and the exact condition under which
the property does hold:

- `vma_remove_range` unmaps the tail of a range that strictly contains the stretch: `VmaOps.RemoveLosesTail`,
  `VmaView.RemoveExactIff`. A turn of its loop makes progress exactly when the allocations it needs are granted; when one is
  not, it can repeat the turn without end: `VmaOps.RemoveTurn`, `VmaOps.RemoveRange`;
- the second half of a copy-on-write fault can install a stale copy: `Cow.StaleCopy`, `Cow.FinishChangesViewIff`, and
  `Cow.FaultKeepsView` for what rules it out;
- a fault on an absent page that loses a race or finds no room for a page table frees its frame even if the shared-page
  table holds it, and `mprotect` gives write access to pages that are shared copy-on-write: `Cow.LostFrees`,
  `Cow.ShortFrees`, `Cow.ProtectLeaks`, `Cow.StepInv`, `Cow.RunInv`;
- a `vmm_map` that fails on a huge page makes that huge page writable and user-accessible: `PageMap.FailedMapWidens`,
  `PageMap.WidenSilentIff`;
- `ext2_read_block_ptr` on an unallocated indirect slot reads block 0 as an index block: `Ext2File.HoleExample`,
  `Ext2File.HoleRead`;
- `ext2_set_block_ptr` on a volume that runs full on the way leaves an unwritten index block in the tree:
  `Ext2File.FileSystem.SetPtr`, `Ext2File.LostBreaks`, `Ext2File.LostExample`;
- truncating to 0 leaks blocks beyond the rounded-up size, which wraps in 32 bits: `Ext2Truncate.TruncatesAllIff`,
  `Ext2Truncate.AllFreedIff`, `Ext2Truncate.OldBlocksWrap`;
- `kfree` stores through a null magazine when its own is full and no other can be had: `Kmem.SizeClass.Free`,
  `Kmem.FullExample`;
- calls of `kmalloc` and `kfree` that overlap on one CPU can lose objects: `MagazineSteps.ObjectLost`,
  `MagazineSteps.StepInv`, `MagazineSteps.RunInv`, and `MagazineSteps.SerialRun` for what rules it out;
- an RCU callback that joins an active grace period can run too early: `RcuRuns.JoinedRunsEarly`, `RcuRuns.WaitsForAllIff`.

`blk_cache_invalidate` keeps the cache coherent exactly when the slot is clean (`BlockCache.Cache.Invalidate`).

## Model

| member | source | states |
|---|---|---|
| `VmaIndex.VmaIndex.RotateLeft` | kernel/mm/vma.c:28-44 | a left rotation leaves a consistent parent-pointer tree with the same in-order sequence, rotated at `x` and unchanged elsewhere |
| `VmaIndex.VmaIndex.RotateRight` | kernel/mm/vma.c:46-62 | the mirror image |
| `VmaIndex.VmaIndex.InsertStep` | kernel/mm/vma.c:65-106 | one turn of the insert fixup keeps the almost-red-black invariant and moves up |
| `VmaIndex.VmaIndex.InsertFixup` | kernel/mm/vma.c:64-108 | from a red leaf anywhere, the loop ends in a red-black tree with the same in-order sequence |
| `VmaBalance.InsertRecolorInv` | kernel/mm/vma.c:70-75 | recolouring parent, uncle and grandparent moves the only possible red-red edge two levels up |
| `VmaBalance.InsertRotateInv` | kernel/mm/vma.c:76-104 | the closing rotation leaves no red-red edge and the same black heights |
| `VmaBalance.SiblingExists` | kernel/mm/vma.c:144-175 | while a black node is missing, the sibling is never null |
| `VmaBalance.EraseRedSiblingInv` | kernel/mm/vma.c:147-153 | the red-sibling case gives a black sibling and keeps the one-black-short invariant |
| `VmaBalance.EraseRecolorInv` | kernel/mm/vma.c:154-158 | the recolouring case moves the shortage to the parent |
| `VmaBalance.EraseInnerInv` | kernel/mm/vma.c:160-165 | the inner-nephew rotation prepares the closing case |
| `VmaBalance.EraseCloseInv` | kernel/mm/vma.c:166-171 | the closing rotation ends the shortage: the whole tree is red-black |
| `VmaIndex.VmaIndex.EraseStepLeft` | kernel/mm/vma.c:144-172 | one turn with `x` on the left: the tree is red-black again, or the shortage moved up and the measure fell |
| `VmaIndex.VmaIndex.EraseFixup` | kernel/mm/vma.c:139-203 | terminates with a red-black tree and the same in-order sequence, without following a null sibling |
| `VmaErase.Transplant` | kernel/mm/vma.c:110-122 | exactly the parent link of `u` and the parent field of `v` change |
| `VmaErase.Minimum` | kernel/mm/vma.c:124-127 | the leftmost node of the subtree |
| `VmaErase.EraseInner` | kernel/mm/vma.c:222-240 | the successor takes the place of a node with two children; `x_is_left` is right whenever the fixup will use it, although it is computed before the transplant |
| `VmaErase.EraseNode` | kernel/mm/vma.c:205-245 | erasing any node of any red-black tree leaves a red-black tree whose in-order sequence lacks exactly that node |
| `VmaTree.HeightBound` | kernel/mm/vma.c:64-108 | a red-black tree of `n` nodes is at most twice the binary logarithm of `n + 1` high |
| `VmaSpace.ListAdd` | include/kernel/list.h:19-26 | the ring holds the new node at the position between its neighbours |
| `VmaSpace.ListDel` | include/kernel/list.h:36-45 | the ring lacks exactly the node |
| `VmaSpace.Insert` | kernel/mm/vma.c:247-278 | tree and list both get the area after every area that starts no later, and stay red-black, sorted and equal |
| `VmaSpace.Erase` | kernel/mm/vma.c:280-286 | tree and list both lose exactly the area, and stay red-black, sorted and equal |
| `VmaOps.Find` | kernel/mm/vma.c:289-301 | the area that covers the address, or none if a scan of all areas finds none, in at most as many turns as the tree is high, which is logarithmic in the number of areas |
| `VmaOps.FindPrev` | kernel/mm/vma.c:304-317 | the last area that starts below the address |
| `VmaOps.FindFirst` | kernel/mm/vma.c:319-334 | the first area that ends above the address |
| `VmaOps.Split` | kernel/mm/vma.c:373-388 | one range becomes two at the address, with the file offset advanced; nothing changes outside or on failure |
| `VmaView.SplitSame` | kernel/mm/vma.c:373-388 | a split changes the backing of no address |
| `VmaView.MergeSame` | kernel/mm/vma.c:391-422 | merging two compatible neighbours changes the backing of no address |
| `VmaView.MergeSplit` | kernel/mm/vma.c:373-422 | splitting a merged range gives the two ranges back |
| `VmaOps.MergeAdjacent` | kernel/mm/vma.c:391-422 | the area grows down to the start of the one below it exactly when the backing of addresses goes on from that one into it, and up to the end of the one above it exactly when its backing goes on into that one; the absorbed areas are gone, of two joined areas the lower remains, all other areas are the same and no address changes |
| `VmaOps.TestsTell` | kernel/mm/vma.c:395-420 | the two tests on fields find exactly the neighbours whose backing goes on, and the second is not misled by the first merge |
| `VmaView.EraseExact` | kernel/mm/vma.c:280-286 | erasing a range unmaps its addresses and no others |
| `VmaOps.RemoveRange` | kernel/mm/vma.c:424-462 | for any outcomes of the allocations of its turns: no address outside the hole changes and those inside are unmapped or as before; when the loop finishes, exactly the addresses from `start` to `end`, or to the end of the range that strictly contained the stretch, are unmapped; it does finish when the allocations succeed, and repeats without change when they fail on a range that begins inside the stretch and reaches beyond it |
| `VmaOps.RemoveTurn` | kernel/mm/vma.c:427-461 | one turn erases a range if and only if the splits it needs are none or succeed; otherwise no address changes, and the loop is left if the range began below the stretch and repeats if not |
| `VmaView.RemoveExactIff` | kernel/mm/vma.c:424-462 | removal is exact if and only if no range strictly contains the stretch |
| `VmaOps.RemoveLosesTail` | kernel/mm/vma.c:436-439 | the call itself on one range from 0 to 3: removing 1 to 2 unmaps address 2 |
| `BuddyPmm.Pmm.AddToList` | kernel/arch/x86_64/mmu.c:251-258 | the node is linked in front of the list |
| `BuddyPmm.Pmm.RemoveFromList` | kernel/arch/x86_64/mmu.c:260-278 | the node is unlinked from where it is |
| `BuddyLists.AddThreaded` | kernel/arch/x86_64/mmu.c:251-258 | the links then thread the sequence with the node in front |
| `BuddyLists.RemoveThreaded` | kernel/arch/x86_64/mmu.c:260-278 | the links then thread the sequence without the node |
| `BuddyPmm.Pmm.GetBuddy` | kernel/arch/x86_64/mmu.c:292-296 | the page whose number differs from the given one in that bit and no other, none exactly when that number is beyond the array |
| `BuddyArith.FlipIsXor` | kernel/arch/x86_64/mmu.c:292-296 | adding or subtracting the block size, by the parity of the block, is the exclusive or, and the only number with those bits |
| `BuddyTiling.BuddyIsHead` | kernel/arch/x86_64/mmu.c:223-232 | the buddy of a block is never interior to another block |
| `BuddyPmm.BuddyTest` | kernel/arch/x86_64/mmu.c:226-232 | the field test succeeds exactly when the buddy is a whole free block of that order, despite stale fields of interior pages |
| `BuddyTiling.SplitTiled` | kernel/arch/x86_64/mmu.c:199-209 | halving a block keeps the tiling |
| `BuddyTiling.MergeTiled` | kernel/arch/x86_64/mmu.c:234-245 | merging buddies keeps the tiling |
| `BuddyPmm.Pmm.TakeBlock` | kernel/arch/x86_64/mmu.c:184-196 | the head of the smallest non-empty list of at least the order |
| `BuddyPmm.Pmm.Alloc` | kernel/arch/x86_64/mmu.c:180-216 | one block of that order, the beginning of a smallest free block that suffices, becomes used and nothing else changes; fails exactly when no block of at least that order is free; blocks stay disjoint, aligned, tiling, coalesced, and the lists hold exactly the free heads |
| `BuddyPmm.Pmm.Free` | kernel/arch/x86_64/mmu.c:218-249 | exactly the pages of the block become free and no two free buddies of equal order remain |
| `BuddyAllocator.AllocFreeRestores` | kernel/arch/x86_64/mmu.c:180-249 | allocating and freeing again restores the very same blocks |
| `BuddyTiling.FreeBlocksCanonical` | kernel/arch/x86_64/mmu.c:180-249 | which blocks are free depends only on which pages are free |
| `BuddyInit.PickOrder` | kernel/arch/x86_64/mmu.c:159-168 | the largest order aligned at the frame that fits |
| `BuddyInit.NoFreeBuddy` | kernel/arch/x86_64/mmu.c:148-176 | greedy filling never leaves two free buddies |
| `BuddyInit.FillRegion` | kernel/arch/x86_64/mmu.c:145-176 | one region adds exactly its frames outside the page array |
| `BuddyInit.TotalPages` | kernel/arch/x86_64/mmu.c:106-118 | the last frame end of all regions that are or will be usable, exactly |
| `BuddyInit.PlaceArray` | kernel/arch/x86_64/mmu.c:121-134 | the first frame of the first free region that can hold the array; 0 exactly when there is none or it begins at frame 0 |
| `BuddyInit.Init` | kernel/arch/x86_64/mmu.c:97-178 | succeeds exactly when the first free region that can hold the page array does not begin at frame 0; the array lies there; the free blocks tile exactly the usable frames minus the array, fully coalesced |
| `PageTable.WalkAgrees` | kernel/arch/x86_64/mmu.c:597-622 | the translation of a page, with the rights granted at every level, depends only on the entries on its way |
| `PageTable.LinkWalk` | kernel/arch/x86_64/mmu.c:321-333 | hanging a table below an entry changes only the pages through that entry |
| `PageTable.UnlinkWalk` | kernel/arch/x86_64/mmu.c:573-590 | giving up a table changes only the pages through its entry |
| `PageTable.PutLeaf` | kernel/arch/x86_64/mmu.c:402-423 | a leaf entry decides what its pages translate to |
| `PageTable.PutPointer` | kernel/arch/x86_64/mmu.c:335-336 | rewriting an entry that points to a table, without taking rights away, changes no translation |
| `PageTable.LinkWellFormed` | kernel/arch/x86_64/mmu.c:321-333 | the tables stay a tree without lost or shared tables |
| `PageTable.UnlinkWellFormed` | kernel/arch/x86_64/mmu.c:573-590 | the same for a table that is given up |
| `PageMap.IndicesExact` | kernel/arch/x86_64/mmu.c:314-316 | distinct pages have distinct table indices, and share a directory entry exactly within 2 MiB |
| `PageMap.AddressMap.constructor` | kernel/arch/x86_64/mmu.c:624-629 | a new map translates nothing |
| `PageMap.AddressMap.NewTable` | kernel/arch/x86_64/mmu.c:321-333 | no translation changes |
| `PageMap.AddressMap.GetPte` | kernel/arch/x86_64/mmu.c:314-346 | the table with the page's entry, with no translation and no effective right changed; succeeds if and only if no huge page is in the way and the frames at hand make up for the tables missing below the deepest one on the way |
| `PageMap.AddressMap.Map` | kernel/arch/x86_64/mmu.c:410-429 | the addressed page gets exactly the frame and the rights asked for, whatever tables are on its way, and no other page changes, if and only if no huge page is in the way and there are frames for the missing tables; a failure changes none, except that a huge page in the way is widened; no table frame is lost |
| `PageMap.AddressMap.MapHuge` | kernel/arch/x86_64/mmu.c:362-408 | changes the translation of exactly the addressed 2 MiB, replacing a page table or huge page, if and only if page and frame are aligned and there are frames for the missing tables; a failure changes none |
| `PageMap.AddressMap.SetDirectory` | kernel/arch/x86_64/mmu.c:386-402 | the page table below the entry is released and only its region changes |
| `PageMap.AddressMap.IsEmpty` | kernel/arch/x86_64/mmu.c:509-514 | exactly when no entry is present |
| `PageMap.AddressMap.Unmap` | kernel/arch/x86_64/mmu.c:516-591 | unmaps exactly the page, or the 2 MiB if it is huge; no empty table is left on the way; no frame is lost |
| `PageMap.AddressMap.GetPhys` | kernel/arch/x86_64/mmu.c:597-622 | the physical address the walk gives, 0 if unmapped |
| `PageMap.AddressMap.PageEntries` | kernel/arch/x86_64/mmu.c:808-813 | the 512 entries that say what the huge entry said |
| `PageMap.AddressMap.SplitHuge` | kernel/arch/x86_64/mmu.c:791-828 | changes no translation; succeeds exactly on a huge page with a frame to spare |
| `PageMap.AddressMap.Destroy` | kernel/arch/x86_64/mmu.c:638-695 | every table of the user half and the root are released, each once, and no other |
| `PageMap.WidenSilentIff` | kernel/arch/x86_64/mmu.c:334-340 | a map that fails on a huge page changes nothing if and only if that page was writable and user already |
| `PageMap.FailedMapWidens` | kernel/arch/x86_64/mmu.c:334-340 | the calls themselves: a map of a page in a read-only huge page fails, and the huge page is writable |
| `Cow.StepInv` | kernel/arch/x86_64/mmu.c:1026-1128 | a step of fork, fault, write fault, `mprotect`, unmap or write keeps the invariant if and only if it neither frees a frame of the shared-page table nor gives write access to a private page that is copy-on-write or mapped more than once |
| `Cow.RunInv` | kernel/arch/x86_64/mmu.c:1026-1128 | in every interleaving, as long as no such step is taken and no longer, every reference count is the number of entries that map the frame plus one if it is registered as shared, and a writable private entry is its frame's only mapping |
| `Cow.FaultLostIff` | kernel/arch/x86_64/mmu.c:1049-1060 | a fault on an absent page that loses the race or finds no table keeps the counts if and only if its frame is not in the shared-page table |
| `Cow.LostFrees` | kernel/sys/sys_mmap.c:53-101 | a run in which the loser frees a page in use, and an allocation of another process changes what the owner sees |
| `Cow.ShortFrees` | kernel/arch/x86_64/mmu.c:1049-1060 | a run in which a fault that finds no table frees a page another process has mapped |
| `Cow.ProtectIff` | kernel/arch/x86_64/mmu.c:830-871 | `mprotect` keeps the invariant if and only if it takes write access away, or the page is shared, or it is neither copy-on-write nor mapped more than once |
| `Cow.ProtectLeaks` | kernel/arch/x86_64/mmu.c:851-861 | a run in which a parent's private write then shows in its child |
| `Cow.InitialInv` | kernel/arch/x86_64/mmu.c:624-636 | the invariant holds at the start |
| `Cow.RemoveEntryInv` | kernel/arch/x86_64/mmu.c:562-570 | dropping an entry keeps the counts |
| `Cow.WriteIsPrivate` | kernel/arch/x86_64/mmu.c:1069-1128 | a private write changes no other entry's view in any process |
| `Cow.OthersUnaffected` | kernel/arch/x86_64/mmu.c:875-948 | no other step changes what an entry it does not map or unmap shows |
| `Cow.ForkCopiesView` | kernel/arch/x86_64/mmu.c:875-948 | the child sees what the parent sees |
| `Cow.ForkAccess` | kernel/arch/x86_64/mmu.c:922-937 | parent and child get the same entry: a shared one stays as it was; a private one is writable in neither, and copy-on-write in both if and only if the parent could write it |
| `Cow.ForkFailedAccess` | kernel/arch/x86_64/mmu.c:922-937 | the same for the parent's entry when the child's cannot be mapped |
| `Cow.RunAccess` | kernel/arch/x86_64/mmu.c:875-1128 | in every run, through any forks, faults and writes, a mapped page that was writable or copy-on-write stays so, one that was neither stays so, and private and shared pages stay what they are, until their own process unmaps them or changes their rights |
| `Cow.ProtectBack` | kernel/arch/x86_64/mmu.c:840-866 | `mprotect` sets the write permission alone: the page may be written exactly if asked for or copy-on-write, and changing it back restores everything |
| `Cow.RunNoneLost` | kernel/arch/x86_64/mmu.c:562-1128 | in every run without unsafe steps a frame is in use if and only if an entry, the shared-page table or a half-done fault refers to it |
| `Cow.FaultMaps` | kernel/arch/x86_64/mmu.c:1026-1063 | in every run, a fault on an absent page that still finds it absent maps the frame it took with the rights asked for, and a page of its own shows what it was filled with |
| `Cow.TargetUntouched` | kernel/arch/x86_64/mmu.c:1088-1090 | between the halves of a fault no step of another thread writes the copy |
| `Cow.CopyHeld` | kernel/arch/x86_64/mmu.c:1088-1090 | in every run, up to the end of the fault the copy holds what the source held at the copy step |
| `Cow.FinishChangesViewIff` | kernel/arch/x86_64/mmu.c:1090-1113 | in every run, the end of a write fault changes what the faulting process sees if and only if it installs the copy and the source was written after the copy step |
| `Cow.CowUnwritten` | kernel/arch/x86_64/mmu.c:1069-1128 | while some entry maps a frame copy-on-write, no step changes the frame |
| `Cow.FaultKeepsView` | kernel/arch/x86_64/mmu.c:1080-1113 | in every run, a write fault leaves the faulting process its page, now writable, if nobody else takes over, unmaps, protects or finishes a fault on that page meanwhile |
| `Cow.StaleCopy` | kernel/arch/x86_64/mmu.c:1088-1113 | a run, without unsafe steps, in which a stale copy is installed |
| `Ext2Bitmap.Volume.Alloc` | kernel/vfs/ext2.c:231-275 | the lowest free block other than 0 becomes used and no other bit changes; fails exactly when none is free; every group's count stays its number of clear bits |
| `Ext2Bitmap.Volume.Free` | kernel/vfs/ext2.c:637-671 | exactly the block's bit is cleared, the count follows; a free block stays as it is |
| `Ext2Bitmap.SetBit` | kernel/vfs/ext2.c:257-263 | setting or clearing a bit with the count adjusted keeps count equal to clear bits |
| `Ext2Tree.PlaceOfIndex` | kernel/vfs/ext2.c:130-173 | every file block has a data pointer of its own |
| `Ext2Tree.IndexOfPlace` | kernel/vfs/ext2.c:130-173 | every data pointer belongs to a file block |
| `Ext2Tree.SetWord` | kernel/vfs/ext2.c:391-392 | writing the last pointer changes no other pointer of the tree |
| `Ext2Tree.LinkWord` | kernel/vfs/ext2.c:376-386 | neither does linking a zeroed index block |
| `Ext2Tree.LinkSlot` | kernel/vfs/ext2.c:338-346 | the same for the index block of a slot |
| `Ext2Tree.SetsTree` | kernel/vfs/ext2.c:323-458 | naming a fresh block keeps every block named once |
| `Ext2File.FileSystem.ReadPtr` | kernel/vfs/ext2.c:126-188 | follows the words of the index from the slot, at all four levels, or answers too big |
| `Ext2File.ReadExact` | kernel/vfs/ext2.c:126-188 | under an allocated slot the answer is the tree's pointer |
| `Ext2File.HoleRead` | kernel/vfs/ext2.c:146-182 | under a slot that is 0 the block is a hole but block 0 is read as its index; at every level the answer is 0 if and only if the words followed from block 0 come to a 0 before they leave the device |
| `Ext2File.HoleExample` | kernel/vfs/ext2.c:146-148 | an empty inode whose first indirect block reads as whatever block 0 holds |
| `Ext2File.FileSystem.SetPtr` | kernel/vfs/ext2.c:323-458 | succeeds if and only if the index is within the file limit and as many blocks are free as index blocks are missing on the way; then only the addressed data pointer changes, the pointers stay a tree of blocks marked used, and no block outside the inode's index blocks is written; leaves an index block linked but never written if and only if some but not enough blocks are free, and with that block read as zero the tree and every data pointer are as before; any other failure changes nothing |
| `Ext2File.LostBreaks` | kernel/vfs/ext2.c:360-378 | if the index block so left happens to hold its own number, the pointers are no longer a tree |
| `Ext2File.LostExample` | kernel/vfs/ext2.c:358-378 | the call itself on an empty double-indirect slot of a volume with one free block: it fails and leaves no tree |
| `Ext2File.SetRead` | kernel/vfs/ext2.c:323-458 | the index then reads as the new block, and every other index under an allocated slot as before |
| `Ext2Truncate.FreeTree` | kernel/vfs/ext2.c:673-688 | exactly the blocks reached at or below the pointer are given back, each once |
| `Ext2Truncate.Truncate` | kernel/vfs/ext2.c:691-735 | exactly what the slots below `old_blocks` reach is given back, each block once; those slots are cleared |
| `Ext2Truncate.AllFreedIff` | kernel/vfs/ext2.c:691-735 | every block of the inode is given back if and only if no slot beyond `old_blocks` is in use |
| `Ext2Truncate.TruncatesAllIff` | kernel/vfs/ext2.c:691-735 | truncating a file whose blocks all lie below its size gives back every block, each once, if and only if rounding the size up does not overflow 32 bits |
| `Ext2Truncate.CoveredBelow` | kernel/vfs/ext2.c:698-731 | the slot of every file block below `old_blocks` is looked at |
| `Ext2Truncate.OldBlocksExactIff` | kernel/vfs/ext2.c:695 | `old_blocks` covers the size if and only if the rounding does not overflow 32 bits |
| `Ext2Truncate.OldBlocksWrap` | kernel/vfs/ext2.c:695 | at the largest size nothing is given back |
| `Ext2DirBlock.SplitRecord` | kernel/vfs/ext2.c:505-513 | splitting a record keeps the block tiled and adds exactly the new entry after the old one |
| `Ext2DirBlock.ReuseRecord` | kernel/vfs/ext2.c:514-520 | taking over a free record does the same |
| `Ext2DirBlock.FreeFirst` | kernel/vfs/ext2.c:594-596 | marking the first record free keeps the tiling and drops its entry |
| `Ext2DirBlock.MergeRecord` | kernel/vfs/ext2.c:597-602 | lengthening the previous record keeps the tiling and drops the next entry only |
| `Ext2Dir.AddToBlock` | kernel/vfs/ext2.c:492-526 | inserts the entry and nothing else, or no record of the block has room |
| `Ext2Dir.RemoveFromBlock` | kernel/vfs/ext2.c:583-610 | removes the first entry of that name and nothing else, and leaves room for a name of its length, or there is none |
| `Ext2Dir.FindInBlock` | kernel/vfs/ext2.c:789-828 | finds the first entry of that name exactly when there is one |
| `Ext2Dir.Directory.Add` | kernel/vfs/ext2.c:466-564 | the entries of the directory gain exactly the new one; one block is added, and only when no block has room |
| `Ext2Dir.Directory.Remove` | kernel/vfs/ext2.c:566-615 | the entries lose exactly the first of that name |
| `Ext2Dir.Directory.Lookup` | kernel/vfs/ext2.c:763-832 | the inode number of the first entry of that name, found exactly when there is one |
| `Ext2Dir.AddFinds` | kernel/vfs/ext2.c:466-564 | with unique names, lookup then finds the new inode, every other name resolves as before, names stay unique |
| `Ext2Dir.RemoveFinds` | kernel/vfs/ext2.c:566-615 | with unique names, lookup then fails, every other name resolves as before |
| `Ext2Dir.RemoveThenAdd` | kernel/vfs/ext2.c:466-615 | the space of a removed name is used again: a name no longer than it is then added without a new block |
| `RwSemaphore.StepInv` | kernel/lib/lock.c:103-194 | every critical section keeps the invariant on count, queues and wake-ups |
| `RwSemaphore.RunInv` | kernel/lib/lock.c:103-194 | it holds in every run: -1 exactly with one writer and no reader, otherwise the number of readers; the queues are the waiting threads |
| `RwSemaphore.WakeInv` | kernel/lib/lock.c:182-192 | the hand-over at a release leaves a woken thread for every non-empty queue it must |
| `RwSemaphore.Exclusion` | kernel/lib/lock.c:103-194 | in every run a writer excludes everyone else |
| `RwSemaphore.NoLostWakeup` | kernel/lib/lock.c:103-194 | in every run, while a thread waits somebody is in or a woken thread has yet to try (a writer, for a waiting writer) |
| `RwSemaphore.StepGrants` | kernel/lib/lock.c:111-194 | after every run, told by who reads, writes and waits: a reader enters if and only if nobody writes and no writer waits, a writer if and only if nobody is in; a release that leaves nobody in wakes the writer that has waited longest or, if none waits, the reader that has waited longest, and any other wakes nobody |
| `RwSemaphore.QueueOrder` | kernel/lib/lock.c:111-194 | in every run the queues hold the waiting threads by the time of their last try |
| `RwSemaphore.Semaphore.TryDownRead` | kernel/lib/lock.c:111-127 | one pass of the loop is the read step; it gets the lock if and only if nobody writes and no writer waits |
| `RwSemaphore.Semaphore.ReleaseRead` | kernel/lib/lock.c:129-146 | the release step, with its wake-up |
| `RwSemaphore.Semaphore.TryDownWrite` | kernel/lib/lock.c:155-175 | one pass of the loop is the write step; it gets the lock if and only if nobody reads or writes |
| `RwSemaphore.Semaphore.ReleaseWrite` | kernel/lib/lock.c:177-194 | the release step, with its wake-up |
| `RwSemaphore.Semaphore.WriteToRead` | kernel/lib/lock.c:148-153 | the downgrade step |
| `Mutex.RunInv` | kernel/lib/lock.c:56-101 | locked exactly while one thread holds; the queue is the waiting threads |
| `Mutex.Safe` | kernel/lib/lock.c:56-101 | in every run one holder at most, and while a thread waits somebody holds or has been woken |
| `Mutex.StepGrants` | kernel/lib/lock.c:63-101 | after every run a thread that tries gets the mutex if and only if nobody holds it, and a release wakes the thread that has waited longest |
| `TicketLock.StepInv` | kernel/lib/lock.c:14-43 | the outstanding tickets are those from now-serving to next, one CPU each |
| `TicketLock.Exclusion` | kernel/lib/lock.c:14-43 | in every run one holder at most, although trylock reads the two words one after the other |
| `TicketLock.TryFindsFree` | kernel/lib/lock.c:25-36 | a successful trylock finds nobody holding or waiting |
| `TicketLock.TryGrants` | kernel/lib/lock.c:25-36 | in every run trylock succeeds if and only if nobody holds or waits and the lock was not released since its first read; otherwise nothing but the CPU's own state changes |
| `TicketLock.EnterInOrder` | kernel/lib/lock.c:14-23 | first come, first served |
| `TicketLock.NobodyStuck` | kernel/lib/lock.c:14-43 | while a CPU spins, the lock is held or the next in line can enter |
| `BlockCache.Cache.Lookup` | kernel/vfs/blk_cache.c:24-32 | a valid slot of that sector, or there is none |
| `BlockCache.Cache.Evict` | kernel/vfs/blk_cache.c:34-46 | the slot whose turn it is is emptied, written back exactly if dirty, and no other changes; what the cache shows stays |
| `BlockCache.Cache.Read` | kernel/vfs/blk_cache.c:48-70 | returns what a plain disk would; a hit changes nothing, a miss replaces exactly the slot whose turn it is; the cache stays coherent: one valid slot a sector, dirty slots valid, clean slots equal to the device |
| `BlockCache.Cache.Write` | kernel/vfs/blk_cache.c:72-85 | acts as a write to the plain disk; only the slot of the sector, or the one whose turn it is, changes, and the device only by its write-back |
| `BlockCache.Cache.Flush` | kernel/vfs/blk_cache.c:87-119 | afterwards the device equals the plain disk, for one device or for all, and the other devices and the cached sectors are as before |
| `BlockCache.Cache.Invalidate` | kernel/vfs/blk_cache.c:121-127 | exactly the slot of the sector is dropped; the cache stays coherent if and only if it was clean |
| `BlockCache.FlushShows` | kernel/vfs/blk_cache.c:91-114 | listing, cleaning and writing out the dirty sectors changes nothing the cache shows |
| `BlockCache.MissLasts` | kernel/vfs/blk_cache.c:34-70 | a sector brought in outlasts 255 further misses, and a miss brings every other one turn nearer its end |
| `BlockCache.RunAll` | kernel/vfs/blk_cache.c:48-119 | every sequence of reads, writes and flushes answers as the plain disk, and a sector stays cached over as many misses as its slot is turns away |
| `RunQueues.InOnce` | kernel/proc/sched.c:39-68 | a thread is queued in one place only |
| `RunQueues.EnqueueInv` | kernel/proc/sched.c:39-68 | enqueueing an unqueued thread adds exactly it; level equals priority, count equals total length |
| `RunQueues.EnqueueJoins` | kernel/proc/sched.c:39-68 | the thread becomes the last of the level its priority 0 to 3 names, which it keeps, or of level 0 with any other priority, on its own CPU if that exists and on the calling one if not; all other queues and threads are the same |
| `RunQueues.TakeInv` | kernel/proc/sched.c:91-141 | dequeueing or stealing removes exactly the thread taken |
| `RunQueues.TakeLeaves` | kernel/proc/sched.c:91-141 | the thread is the first of the highest level in use, keeps its priority, and gets a slice of 5, 10, 20 or 40 ticks for levels 0 to 3; all other queues and threads are the same |
| `RunQueues.StealFinds` | kernel/proc/sched.c:103-131 | a CPU that has threads takes its own; an idle one takes from the nearest CPU ahead that has threads and whose lock can be had, and finds one whenever there is one |
| `RunQueues.BoostIs` | kernel/proc/sched.c:282-312 | a boost puts all threads of a CPU at its top level, in stable order |
| `RunQueues.BoostKeeps` | kernel/proc/sched.c:282-312 | and loses or adds none |
| `RunQueues.BoostThread` | kernel/proc/sched.c:282-312 | exactly the threads queued below the top level of the boosted CPUs get priority 0 and a slice of 5 ticks |
| `RunQueues.StepStands` | kernel/proc/sched.c:39-312 | no step moves a thread at the top level back; each dequeue on its CPU moves it on or dispatches it |
| `RunQueues.BoundedWait` | kernel/proc/sched.c:39-312 | a thread `i`-th in line at the top level runs within `i + 1` dequeues of its CPU, whatever is enqueued, boosted CPU by CPU, or stolen |
| `RunQueues.BoostedWait` | kernel/proc/sched.c:282-312 | after a boost of its CPU, a thread queued at any level runs within as many dequeues as that CPU had threads queued |
| `Scheduler.Scheduler.Enqueue` | kernel/proc/sched.c:39-68 | the thread becomes the last of the level its priority names, or of level 0 if it names none, on its own CPU or the calling one; nothing else changes |
| `Scheduler.Scheduler.Dequeue` | kernel/proc/sched.c:83-145 | takes the head of the highest level of its own CPU, or of the first victim in order; exactly that thread leaves, with its priority and the slice of its level |
| `Scheduler.Scheduler.BoostOne` | kernel/proc/sched.c:288-309 | the move of one thread after another amounts to joining the levels |
| `Scheduler.Scheduler.Boost` | kernel/proc/sched.c:282-321 | all CPUs are boosted, exactly the lower queued threads and the sleeping ones get priority 0, no thread is lost |
| `Scheduler.Scheduler.Sleep` | kernel/proc/sched.c:256-273 | inserted behind every thread that wakes no later; the sleep queue stays sorted |
| `Scheduler.Scheduler.WakeDue` | kernel/proc/sched.c:327-335 | exactly the threads whose time has come are enqueued, in order |
| `Scheduler.Scheduler.Charge` | kernel/proc/sched.c:342-360 | a used-up slice demotes the running thread one level, at most to the last |
| `Kmem.GetIndex` | kernel/mm/kmem.c:43-51 | the first class large enough, none above 2048 bytes |
| `Kmem.ClassFound` | kernel/mm/kmem.c:295-296 | the size stored with a page gives back the class it was carved for |
| `Kmem.SizeClass.Refill` | kernel/mm/kmem.c:164-193 | one new object that overlaps no other: the next of the chunk, or the first of a fresh one, which then has one less than fit in it; fails if and only if the chunk is used up and no other can be had |
| `Kmem.SizeClass.GetEmptyMag` | kernel/mm/kmem.c:101-120 | an empty magazine from the depot or a new one |
| `Kmem.SizeClass.SwapFull` | kernel/mm/kmem.c:122-145 | the full magazine moves to the depot with its objects; counts and lists keep matching; the CPU is left without a magazine exactly when no empty one can be had |
| `Kmem.SizeClass.SwapEmpty` | kernel/mm/kmem.c:195-225 | the CPU gets the last full magazine of the depot, or its own one refilled with new objects to the last slot unless pages run out; the objects in use stay the same |
| `Kmem.SizeClass.Malloc` | kernel/mm/kmem.c:242-277 | one object that was not in use becomes so: the last of the CPU's magazine, else the last of the depot's last full one, else a new one; fails if and only if there is no magazine, or none of these and no chunk to be had |
| `Kmem.SizeClass.Free` | kernel/mm/kmem.c:299-323 | the object is no longer in use, or is lost, or the code is left with a null magazine, each under its exact condition on the magazine, the depot and memory; every carved object stays in exactly one of use, a CPU's magazine or a full depot magazine |
| `Kmem.FreeThenMalloc` | kernel/mm/kmem.c:227-324 | an object a CPU frees and keeps is the one its next request gets, without new memory |
| `Kmem.FullExample` | kernel/mm/kmem.c:227-324 | 17 calls of `kmalloc` and one of `kfree` on one CPU, after which a `kfree` without memory leaves the null magazine |
| `Kmem.Allocator.NeverOverlap` | kernel/mm/kmem.c:164-193 | no two carved objects of any classes overlap |
| `Kmem.Allocator.NeverOverlapLarge` | kernel/mm/kmem.c:53-66 | nor do objects and blocks of pages |
| `Kmem.Allocator.ClassOf` | kernel/mm/kmem.c:283-295 | the page of an object holds the size of its class |
| `Kmem.Allocator.AllocLarge` | kernel/mm/kmem.c:53-66 | the least power of two of pages that holds the request, disjoint from all else; fails if and only if it is over 1024 pages or so many are not to be had |
| `Kmem.Allocator.Kmalloc` | kernel/mm/kmem.c:227-278 | one more object in use, of the smallest class that fits, or a block of pages; fails if and only if the class or the page allocator has none |
| `Kmem.Allocator.Kfree` | kernel/mm/kmem.c:280-324 | the class is recovered from the page, and exactly the object or block is given back unless there is no magazine for it, with the exact condition; the pages of a block are free again |
| `Magazines.CpuSwap` | kernel/mm/kmem.c:122-145 | a magazine that changes hands keeps every object in one place |
| `Magazines.CarveNext` | kernel/mm/kmem.c:184-186 | carving the next object keeps objects apart |
| `MagazineSteps.StepInv` | kernel/mm/kmem.c:101-145 | a step of any call keeps every magazine and every object in one place if and only if it does not read or swap a magazine between the halves of a swap on that CPU, swap one that another thread holds or that has changed since it was tested, or fill one that is full |
| `MagazineSteps.RunInv` | kernel/mm/kmem.c:195-324 | in every interleaving of calls on any CPUs, that holds exactly as long as no such step is taken |
| `MagazineSteps.SerialRun` | kernel/mm/kmem.c:227-324 | in every run in which calls do not overlap on a CPU, whatever happens on the others, no such step is taken |
| `MagazineSteps.MallocServed` | kernel/mm/kmem.c:242-277 | a `kmalloc` that runs through hands out the last object of its CPU's magazine or, when that is empty and the depot has a full one, of that one, which becomes the CPU's |
| `MagazineSteps.FreeServed` | kernel/mm/kmem.c:299-323 | a `kfree` that runs through puts the object in its CPU's magazine or, when that is full and the depot has an empty one, in that one, which becomes the CPU's |
| `MagazineSteps.ObjectLost` | kernel/mm/kmem.c:200-224 | a run in which an object freed between the halves of a swap on its CPU is in no magazine and not in use |
| `RamFile.File.ToBlocks` | kernel/vfs/ramfs.c:211-245 | the conversion of a static buffer keeps the contents; fails exactly when blocks run out |
| `RamFile.File.Extend` | kernel/vfs/ramfs.c:247-262 | the file grows by zeros, or not at all when the array of blocks cannot |
| `RamFile.File.WriteBlocks` | kernel/vfs/ramfs.c:264-285 | exactly the bytes written change, up to where memory ran out |
| `RamFile.File.Write` | kernel/vfs/ramfs.c:202-289 | the contents become the old ones, zero-extended, with the data over them up to where memory ran out; succeeds whenever the array can grow and there are blocks for a conversion and for all blocks the data touches |
| `RamFile.File.Read` | kernel/vfs/ramfs.c:291-335 | the bytes of the contents from the offset, cut at the end |
| `RamFile.File.SetSize` | kernel/vfs/ramfs.c:564-637 | the contents are cut or zero-filled to the size, or unchanged exactly when blocks for a conversion or room in the array are missing |
| `RamFile.WriteStores` | kernel/vfs/ramfs.c:268-283 | a copy into one block changes exactly those bytes |
| `RamFile.ShrinkStores` | kernel/vfs/ramfs.c:617-637 | dropping slots and clearing the last block keeps everything past the end zero |
| `RamFile.RunAll` | kernel/vfs/ramfs.c:202-637 | for any sequence of reads, writes and size changes, every read returns, up to the end of the file, what the last operation that touched each position left there; with blocks for a conversion and for all blocks the writes touch, all take full effect |
| `RamFile.NothingPastEnd` | kernel/vfs/ramfs.c:247-262 | after any such sequence everything past the end is zero, so a gap or a regrown part reads as zero |
| `Rcu.StepInv` | kernel/misc/rcu.c:39-162 | every step keeps the invariant on lists, counts and sections |
| `Rcu.RunInv` | kernel/misc/rcu.c:39-162 | it holds in every run: each callback is in exactly one of pending, done, a CPU's batch or run |
| `Rcu.RunsOnce` | kernel/misc/rcu.c:51-162 | in every run no callback runs twice |
| `RcuRuns.GracePeriod` | kernel/misc/rcu.c:51-113 | in every run, between the registration of a callback and its call there is a point at which the read locks and unlocks of each CPU balance that had more locks than unlocks at the registration and had not reported since the grace period began |
| `RcuRuns.NestingCounts` | kernel/misc/rcu.c:39-49 | in every run the nesting of a CPU is its `rcu_read_lock` calls less its `rcu_read_unlock` calls, and as many of its sections have ended as that came back to 0 |
| `RcuRuns.EndedIffLeaves` | kernel/misc/rcu.c:39-49 | over every stretch of a run, a section a CPU is in has ended if and only if its locks and unlocks have balanced |
| `RcuRuns.ReportedIs` | kernel/misc/rcu.c:79-106 | in every run a CPU is no longer waited for if and only if it has reported since the grace period began |
| `RcuRuns.CallsInOrder` | kernel/misc/rcu.c:51-162 | in every run the callbacks a CPU has taken, then the finished, then the pending ones are in the order of their registration |
| `RcuRuns.WaitsForAllIff` | kernel/misc/rcu.c:51-113 | in all continuations a callback runs only after the locks and unlocks of every CPU that was reading at its registration have balanced, if and only if each of those was still to report; one that opens a grace period always does |
| `RcuRuns.ReaderMissed` | kernel/misc/rcu.c:79-113 | from every state in which a reader has already reported, a run in which the callback is about to run and the locks and unlocks of that reader have not balanced |
| `RcuRuns.JoinedRunsEarly` | kernel/misc/rcu.c:60-74 | a run in which a callback that joins a grace period runs while a reader of its registration is still inside |
| `Rcu.RcuState.Call` | kernel/misc/rcu.c:51-77 | the registration step |
| `Rcu.RcuState.ReportQs` | kernel/misc/rcu.c:79-87 | the report step, or nothing when a condition fails |
| `Rcu.RcuState.EndGracePeriod` | kernel/misc/rcu.c:88-109 | the step of the CPU that reports last |
| `Rcu.RcuState.Softirq` | kernel/misc/rcu.c:147-161 | runs exactly the finished callbacks, in order |
| `Rcu.RcuState.Lock` | kernel/misc/rcu.c:39-43 | entering a read section, nested or not |
| `Rcu.RcuState.Unlock` | kernel/misc/rcu.c:45-49 | leaving one |

## Left out

- VmaOps.RemoveRange: the outcomes of `vma_alloc` are an input, one pair for each turn; the model follows as many turns as there are outcomes.
- VmaOps.Split: the outcome of `vma_alloc` is an input.
- VMA accounting and the callers that place mappings: disjoint ranges are a precondition here.
- BuddyPmm.Pmm.Free: a block is freed at the order it was allocated with; the code takes no lock, so calls are atomic here.
- BuddyInit.Init: assumes free regions that neither overlap nor touch in frames; the sum of base and length of a region does not wrap in 64 bits.
- PageMap.AddressMap.constructor: the kernel half, whose tables all maps share, is left out.
- PageMap.AddressMap.Map: bit 7 of the flags of a 4 KiB entry is left out, and so are the reference counts of tables and TLB invalidation.
- PageMap.AddressMap.Unmap: does not release the mapped frame itself; reference counts of data pages are in `Cow`.
- Cow: critical sections are atomic steps, huge pages are excluded, and destroying a map is the unmapping of its entries one by one; an eager mapping is the two steps of a fault, and mapping over a present entry is left out; so are which file page a shared frame belongs to and the reference System V shared memory takes.
- Ext2File.FileSystem.SetPtr: takes a non-zero block that is already allocated; I/O errors, the superblock and the blocks that hold bitmaps and descriptors are left out.
- Ext2File.FileSystem.ReadPtr: I/O errors other than a block number beyond the device are left out.
- Ext2Truncate.Truncate: only truncation to 0; partial truncation and inode freeing test for a return value that success does not give.
- Ext2Dir.Directory.Add: the pointer tree and the allocation of a new block are an input (`canGrow`); mount, timestamps, `readdir` and the vnode cache are left out.
- RwSemaphore, Mutex: signal wake-ups of waiting threads are excluded, and the owner fields are left out.
- TicketLock: tickets do not wrap; weak memory and interrupts are left out. The spinning `rwlock_t` is left out.
- BlockCache.Cache: one caller at a time and a device that does not fail; the lock is dropped between a miss and the fill.
- RunQueues, Scheduler: each operation is one step; idle threads, context switches and cross-CPU interrupts are left out, and `free` says which locks `spin_trylock` gets.
- Kmem.SizeClass.SwapFull: both halves of a swap are one step, as calls do not overlap here; `MagazineSteps` has the halves, each locked section and each use of a magazine with interrupts off as steps of their own.
- Kmem.SizeClass.SwapEmpty: both halves of a swap are one step here too.
- Kmem.SizeClass.Free: a call is one step, as are all calls of `Kmem`; the store through the null magazine is the outcome `NullMagazine`, and nothing is said about what follows; the per-page free count, KASAN, `krealloc` and aligned allocation are left out.
- RamFile.File.Write: the array a conversion makes can always be had; blocks are values of the file, not shared buffers. Negative offsets, directories and links are left out.
- RamFile.RunAll: calls do not overlap; `ramfs_write` takes the mutex of the file and `ramfs_setattr` its lock, so the code does not exclude the two from each other.
- Rcu: each function is one or two steps, `synchronize_rcu` and softirq delivery are left out, and a callback is registered once.
- Unix sockets, futexes, signals, ELF loading, drivers, boot code and the system call layer: plumbing without properties of this depth.
