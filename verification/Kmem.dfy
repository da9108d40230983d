/** The kernel allocator (kernel/mm/kmem.c): size classes over a page allocator. */
module Kmem {
  import opened Magazines

  const KMEM_NUM_CLASSES := 16

  /** `kmem_class_sizes` and `kmem_class_init_orders`. */
  const SIZES: seq<nat> := [8, 16, 32, 48, 64, 96, 128, 192, 256, 384, 512, 768, 1024, 1280, 1536, 2048]

  const CHUNKS: seq<nat> := seq(16, i => if i < 8 then 4096 else 65536)

  /** `kmem_get_index`: the first class that is large enough. */
  method GetIndex(size: nat) returns (i: int)
    ensures size > 2048 <==> i == -1
    ensures i != -1 ==> 0 <= i < KMEM_NUM_CLASSES && size <= SIZES[i] && forall j :: 0 <= j < i ==> SIZES[j] < size
  {
    if size <= 8 {
      return 0;
    }
    if size > 2048 {
      return -1;
    }
    assert SIZES[15] == 2048;
    i := 1;
    while size > SIZES[i]
      invariant 1 <= i < KMEM_NUM_CLASSES && forall j :: 0 <= j < i ==> SIZES[j] < size
      decreases KMEM_NUM_CLASSES - i
    {
      i := i + 1;
    }
  }

  lemma Ascending(i: nat, j: nat)
    requires i < j < KMEM_NUM_CLASSES
    ensures SIZES[i] < SIZES[j]
  {
  }

  predicate Within(p: nat, first: nat, n: nat) {
    first <= p < first + n
  }

  /** The bytes `n` objects take; a function of its own so that proofs need no multiplication. */
  function Bytes(n: nat, size: nat): nat { n * size }

  lemma BytesStep(n: nat, size: nat)
    requires n > 0
    ensures Bytes(n, size) == size + Bytes(n - 1, size)
  {
    assert n * size == size + (n - 1) * size;
  }

  lemma BytesFit(bytes: nat, size: nat)
    requires 0 < size <= bytes
    ensures bytes / size > 0 && size <= Bytes(bytes / size, size) <= bytes
  {
    BytesStep(bytes / size, size);
  }

  lemma BytesNone(size: nat)
    ensures Bytes(0, size) == 0
  {
  }

  lemma PageWithin(a: nat, page: nat, n: nat)
    requires page * PAGE_SIZE <= a < page * PAGE_SIZE + n * PAGE_SIZE
    ensures page <= a / PAGE_SIZE < page + n
  {
  }

  /** The pages in use, and what they are cut into. Any allocator that keeps this contract will do. */
  class PageSource {
    var pages: Pages
    var next: nat
    const limit: nat

    constructor (first: nat, last: nat)
      requires first > 0
      ensures Valid() && pages == map[]
    {
      pages := map[];
      next := first;
      limit := last;
    }

    ghost predicate Valid()
      reads this
    {
      next > 0 && forall p :: p in pages ==> p < next
    }

    /** Fewer than `n` adjacent pages are left. */
    ghost predicate Short(n: nat)
      reads this
    {
      next + n > limit
    }

    /** `page_alloc` and `kmem_setup_slab_page`: `n` adjacent pages that were free, cut into objects of `size`. */
    method AllocSlab(n: nat, size: nat) returns (ok: bool, first: nat)
      requires Valid() && n > 0
      modifies this
      ensures Valid() && (!ok ==> pages == old(pages) && next == old(next)) && (ok <==> !old(Short(n)))
      ensures ok ==> first > 0 && (forall p :: first <= p < first + n ==> p !in old(pages))
      ensures ok ==> forall p :: p in pages <==> p in old(pages) || first <= p < first + n
      ensures ok ==> forall p :: p in pages ==> pages[p] == if p in old(pages) then old(pages)[p] else size
    {
      if next + n > limit {
        return false, 0;
      }
      first := next;
      next := next + n;
      pages := pages + map p | first <= p < first + n && Within(p, first, n) :: size;
      ok := true;
    }

    /** `page_free` of `n` adjacent pages. */
    method FreePages(first: nat, n: nat)
      requires Valid()
      modifies this`pages
      ensures Valid() && pages == map p | p in old(pages) && !Within(p, first, n) :: old(pages)[p]
    {
      pages := map p | p in pages && !Within(p, first, n) :: pages[p];
    }
  }

  /** What becomes of a freed object: it is in a magazine, it is never seen again, or the CPU is left without a magazine
      and the code stores through the null pointer. */
  datatype Freed = Kept | Dropped | NullMagazine

  /** Only a CPU without a magazine notices that there is none to be had. */
  function FreeOutcome(mag: Mag, spare: bool, can: bool): Freed {
    if spare || can then Kept
    else if mag.None? then Dropped
    else if |mag.slots| < KMEM_MAG_CAPACITY then Kept
    else NullMagazine
  }

  /** One size class: `depots[idx]` and the magazines of all CPUs for it. */
  class SizeClass {
    const size: nat
    const chunkSize: nat
    const source: PageSource
    var mags: seq<Mag>
    var full: seq<seq<nat>>
    var empty: seq<seq<nat>>
    var fullCount: int
    var emptyCount: int
    var chunk: nat
    var remaining: nat
    ghost var owner: Owners
    ghost var end: nat

    constructor (objectSize: nat, bytes: nat, cpus: nat, from: PageSource)
      requires 0 < objectSize <= bytes && bytes % PAGE_SIZE == 0
      ensures Valid() && size == objectSize && source == from && owner == map[] && |mags| == cpus
      ensures chunkSize == bytes && full == [] && empty == [] && forall c :: 0 <= c < cpus ==> mags[c].None?
    {
      size, chunkSize, source := objectSize, bytes, from;
      mags := seq(cpus, _ => Mag.None);
      full, empty, fullCount, emptyCount := [], [], 0, 0;
      chunk, remaining := 0, 0;
      owner, end := map[], 0;
    }

    ghost predicate Stocked()
      reads this
    {
      && CpusHold(mags, owner) && DepotHolds(full, empty, owner)
      && fullCount == |full| && emptyCount == |empty|
    }

    ghost predicate Valid()
      reads this, source
    {
      && 0 < size <= chunkSize && chunkSize % PAGE_SIZE == 0 && Stocked()
      && Carved(owner, source.pages, size, chunk, end) && end == chunk + Bytes(remaining, size) && (remaining > 0 ==> chunk > 0)
    }

    /** `kmem_depot_refill`: the next object of the chunk, given to CPU `c`'s magazine by the caller. */
    method Refill(ghost c: nat) returns (ok: bool, o: nat)
      requires Valid() && source.Valid()
      modifies this`chunk, this`remaining, this`end, this`owner, source
      ensures source.Valid() && 0 < size <= chunkSize && chunkSize % PAGE_SIZE == 0
      ensures Carved(owner, source.pages, size, chunk, end) && end == chunk + Bytes(remaining, size) && (remaining > 0 ==> chunk > 0)
      ensures Grown(old(source.pages), source.pages, size)
      ensures ok <==> old(remaining) > 0 || !old(source.Short(chunkSize / PAGE_SIZE))
      ensures !ok ==> owner == old(owner) && source.Short(chunkSize / PAGE_SIZE)
      ensures ok ==> o !in old(owner) && owner == old(owner)[o := Cpu(c)] && chunk == o + size
      ensures ok && old(remaining) > 0 ==> o == old(chunk) && remaining == old(remaining) - 1 && source.pages == old(source.pages)
      ensures ok && old(remaining) == 0 ==> remaining == chunkSize / size - 1 && PageOf(o) !in old(source.pages)
    {
      hide Carved, Bytes;
      if remaining == 0 {
        BytesNone(size);
        var got, page := source.AllocSlab(chunkSize / PAGE_SIZE, size);
        if !got {
          return false, 0;
        }
        NewChunk(owner, old(source.pages), source.pages, size, chunk, chunkSize, page);
        chunk := page * PAGE_SIZE;
        remaining := chunkSize / size;
        end := chunk + Bytes(remaining, size);
      }
      o := chunk;
      BytesStep(remaining, size);
      CarveNext(owner, source.pages, size, chunk, end, Cpu(c));
      chunk := chunk + size;
      remaining := remaining - 1;
      owner := owner[o := Cpu(c)];
      ok := true;
    }

    /** `kmem_get_empty_mag`; `can` says whether a page for new magazines can be had. */
    method GetEmptyMag(can: bool) returns (ok: bool)
      requires Stocked()
      modifies this`empty, this`emptyCount
      ensures Stocked() && (ok <==> can || old(empty) != [])
      ensures empty == if old(empty) == [] then [] else old(empty)[..|old(empty)| - 1]
    {
      if empty != [] {
        empty := empty[..|empty| - 1];
        emptyCount := emptyCount - 1;
        return true;
      }
      ok := can;
    }

    /** `kmem_magazine_swap_full`: the CPU's full magazine goes to the depot. */
    method SwapFull(c: nat, can: bool)
      requires Stocked() && c < |mags| && mags[c].Some? && |mags[c].slots| == KMEM_MAG_CAPACITY
      modifies this`mags, this`full, this`empty, this`fullCount, this`emptyCount, this`owner
      ensures Stocked() && |mags| == |old(mags)| && owner.Keys == old(owner).Keys && SameLive(old(owner), owner)
      ensures mags == old(mags)[c := if can || old(empty) != [] then Some([]) else Mag.None] && full == old(full) + [old(mags)[c].slots]
      ensures forall o :: o in owner && o !in old(mags)[c].slots ==> owner[o] == old(owner)[o]
    {
      hide Holds, Flat;
      var q := mags[c].slots;
      assert Slots(mags[c]) == q && Holds(q, owner, Cpu(c));
      AllAt(q, owner, Cpu(c));
      HoldsMoved(q, owner, Cpu(c), Flat(full), Depot);
      FlatPush(full, q);
      CpuSwap(mags, owner, c, Some([]), q, Cpu(c), Depot);
      CpuSwap(mags, owner, c, Mag.None, q, Cpu(c), Depot);
      full := full + [q];
      fullCount := fullCount + 1;
      owner := Reassign(owner, q, Depot);
      mags := mags[c := Mag.None];
      var got := GetEmptyMag(can);
      mags := mags[c := if got then Some([]) else Mag.None];
    }

    /** `kmem_magazine_swap_empty`: a full magazine from the depot if there is one, otherwise a refilled one. */
    method SwapEmpty(c: nat, can: bool)
      requires Valid() && source.Valid() && c < |mags| && mags[c] == Some([])
      modifies this, source
      ensures Valid() && source.Valid() && |mags| == |old(mags)| && Grown(old(source.pages), source.pages, size)
      ensures SameLive(old(owner), owner) && forall o :: o in old(owner) ==> o in owner
      ensures mags[c].Some? && (|mags[c].slots| == KMEM_MAG_CAPACITY || source.Short(chunkSize / PAGE_SIZE))
      ensures if old(full) == [] then full == [] && empty == old(empty) else full == old(full)[..|old(full)| - 1] && empty == old(empty) + [[]]
      ensures old(full) != [] ==> mags == old(mags)[c := Some(old(full)[|old(full)| - 1])] && source.pages == old(source.pages)
      ensures old(full) != [] ==> |mags[c].slots| == KMEM_MAG_CAPACITY
      ensures old(full) == [] ==> (mags[c].slots == [] <==> old(remaining) == 0 && old(source.Short(chunkSize / PAGE_SIZE)))
      ensures old(full) == [] ==> AllNew(mags[c].slots, old(owner))
    {
      hide Holds, Flat, Carved, Bytes;
      empty := empty + [[]];
      emptyCount := emptyCount + 1;
      if full != [] {
        TakeFull(c);
        SameGrown(source.pages, size);
      } else {
        var got := GetEmptyMag(can);
        SameGrown(source.pages, size);
        for i := 0 to KMEM_MAG_CAPACITY
          invariant Valid() && source.Valid() && |mags| == |old(mags)| && mags[c].Some? && |mags[c].slots| == i && full == [] && empty == old(empty)
          invariant Grown(old(source.pages), source.pages, size) && SameLive(old(owner), owner) && forall o :: o in old(owner) ==> o in owner
          invariant AllNew(mags[c].slots, old(owner))
          invariant i > 0 ==> old(remaining) > 0 || !old(source.Short(chunkSize / PAGE_SIZE))
          invariant i == 0 ==> remaining == old(remaining) && (source.Short(chunkSize / PAGE_SIZE) <==> old(source.Short(chunkSize / PAGE_SIZE)))
        {
          ghost var pages0 := source.pages;
          var ok := Carve(c);
          GrownTwice(old(source.pages), pages0, source.pages, size);
          if !ok {
            break;
          }
        }
      }
    }

    /** The depot's first full magazine becomes the CPU's. */
    method TakeFull(c: nat)
      requires Valid() && c < |mags| && mags[c] == Some([]) && full != []
      modifies this`mags, this`full, this`fullCount, this`owner
      ensures Valid() && |mags| == |old(mags)| && SameLive(old(owner), owner) && owner.Keys == old(owner).Keys
      ensures mags == old(mags)[c := Some(old(full)[|old(full)| - 1])] && full == old(full)[..|old(full)| - 1]
      ensures |mags[c].slots| == KMEM_MAG_CAPACITY
    {
      hide Holds, Flat, Carved, Bytes;
      var q := full[|full| - 1];
      FlatPop(full);
      AtEnd(Flat(full[..|full| - 1]), q, owner, Depot);
      assert Slots(mags[c]) == [];
      HoldsSplit(Flat(full[..|full| - 1]), q, owner, Depot, Cpu(c));
      CpuSwap(mags, owner, c, Some(q), q, Depot, Cpu(c));
      CarveSame(owner, Reassign(owner, q, Cpu(c)), source.pages, size, chunk, end);
      full := full[..|full| - 1];
      fullCount := fullCount - 1;
      owner := Reassign(owner, q, Cpu(c));
      mags := mags[c := Some(q)];
    }

    /** The last object of the CPU's magazine is handed out. */
    method Pop(c: nat) returns (o: nat)
      requires Valid() && c < |mags| && mags[c].Some? && mags[c].slots != []
      modifies this`mags, this`owner
      ensures Valid() && |mags| == |old(mags)| && o in old(owner) && old(owner)[o] != Live && o > 0 && owner == old(owner)[o := Live]
      ensures o == old(mags)[c].slots[|old(mags)[c].slots| - 1]
      ensures mags == old(mags)[c := Some(old(mags)[c].slots[..|old(mags)[c].slots| - 1])]
    {
      hide Flat, Bytes, Holds, Carved;
      var q := mags[c].slots;
      assert Slots(mags[c]) == q;
      o := q[|q| - 1];
      HoldsPop(q, owner, Cpu(c), Live);
      HoldsOther(Flat(full), owner, Depot, o, Live);
      CpuStep(mags, owner, c, Some(q[..|q| - 1]), o, Live);
      CarvedPositive(owner, source.pages, size, chunk, end, o);
      CarveSame(owner, owner[o := Live], source.pages, size, chunk, end);
      mags := mags[c := Some(q[..|q| - 1])];
      owner := owner[o := Live];
    }

    /** An object in use is put in the CPU's magazine. */
    method Push(c: nat, o: nat)
      requires Valid() && c < |mags| && mags[c].Some? && |mags[c].slots| < KMEM_MAG_CAPACITY && o in owner && owner[o] == Live
      modifies this`mags, this`owner
      ensures Valid() && owner == old(owner)[o := Cpu(c)] && mags == old(mags)[c := Some(old(mags)[c].slots + [o])]
    {
      hide Flat, Bytes, Holds, Carved;
      var q := mags[c].slots;
      assert Slots(mags[c]) == q;
      HoldsPush(q, owner, Cpu(c), o);
      HoldsOther(Flat(full), owner, Depot, o, Cpu(c));
      CpuStep(mags, owner, c, Some(q + [o]), o, Cpu(c));
      CarveSame(owner, owner[o := Cpu(c)], source.pages, size, chunk, end);
      mags := mags[c := Some(q + [o])];
      owner := owner[o := Cpu(c)];
    }

    /** A CPU that has no magazine yet asks for an empty one. */
    method EnsureMag(c: nat, can: bool) returns (ok: bool)
      requires Valid() && c < |mags|
      modifies this`mags, this`empty, this`emptyCount
      ensures Valid() && |mags| == |old(mags)| && (ok <==> mags[c].Some?) && (can || old(mags)[c].Some? || old(empty) != [] <==> ok)
      ensures old(mags)[c].Some? ==> mags == old(mags) && empty == old(empty)
      ensures old(empty) == [] ==> empty == []
      ensures mags == if ok && old(mags)[c].None? then old(mags)[c := Some([])] else old(mags)
    {
      hide Holds, Flat, Carved, Bytes;
      if mags[c].None? {
        var got := GetEmptyMag(can);
        if got {
          mags := mags[c := Some([])];
        }
      }
      ok := mags[c].Some?;
    }

    /** `kmalloc` on CPU `c` for this class: one object that was not in use, or none. */
    method Malloc(c: nat, can: bool) returns (ok: bool, o: nat)
      requires Valid() && source.Valid() && c < |mags|
      modifies this, source
      ensures Valid() && source.Valid() && |mags| == |old(mags)| && Grown(old(source.pages), source.pages, size)
      ensures !ok ==> SameLive(old(owner), owner)
      ensures !ok ==> (!can && old(mags)[c].None? && old(empty) == []) || source.Short(chunkSize / PAGE_SIZE)
      ensures ok <==> (can || old(mags)[c].Some? || old(empty) != []) &&
                      (old(Slots(mags[c])) != [] || old(full) != [] || old(remaining) > 0 || !old(source.Short(chunkSize / PAGE_SIZE)))
      ensures old(Slots(mags[c])) != [] ==>
                var q := old(mags)[c].slots;
                o == q[|q| - 1] && mags == old(mags)[c := Some(q[..|q| - 1])] && full == old(full) && source.pages == old(source.pages)
      ensures ok && old(Slots(mags[c])) == [] && old(full) != [] ==>
                var q := old(full)[|old(full)| - 1];
                && |q| == KMEM_MAG_CAPACITY && o == q[|q| - 1] && mags == old(mags)[c := Some(q[..|q| - 1])]
                && full == old(full)[..|old(full)| - 1] && source.pages == old(source.pages)
      ensures ok && old(Slots(mags[c])) == [] && old(full) == [] ==> o !in old(owner)
      ensures ok ==> o > 0 && o in owner && owner[o] == Live && !(o in old(owner) && old(owner)[o] == Live)
      ensures ok ==> SameLive(old(owner)[o := Live], owner)
      ensures ok && old(full) == [] ==> full == [] && (old(empty) == [] ==> empty == []) && mags[c].Some?
      ensures ok && old(full) == [] ==> |mags[c].slots| == AfterMalloc(|Slots(old(mags)[c])|) || source.Short(chunkSize / PAGE_SIZE)
    {
      hide Stocked, Carved, Bytes;
      SameGrown(source.pages, size);
      var has := EnsureMag(c, can);
      if !has {
        return false, 0;
      }
      if mags[c].slots != [] {
        o := Pop(c);
        return true, o;
      }
      SwapEmpty(c, can);
      if mags[c].Some? && mags[c].slots != [] {
        o := Pop(c);
        return true, o;
      }
      return false, 0;
    }

    /** `kfree` on CPU `c` for this class. */
    method Free(c: nat, o: nat, can: bool) returns (r: Freed)
      requires Valid() && c < |mags| && o in owner && owner[o] == Live
      modifies this
      ensures Valid() && |mags| == |old(mags)| && owner.Keys == old(owner).Keys
      ensures r == FreeOutcome(old(mags)[c], old(empty) != [], can)
      ensures r == Kept ==> SameLive(old(owner)[o := Cpu(c)], owner)
      ensures r == Kept ==> var q := old(Slots(mags[c]));
                mags == old(mags)[c := Some(if |q| < KMEM_MAG_CAPACITY then q + [o] else [o])] &&
                full == old(full) + (if |q| < KMEM_MAG_CAPACITY then [] else [q])
      ensures r == Dropped ==> owner == old(owner)
      ensures r == NullMagazine ==> SameLive(old(owner), owner) && mags[c].None? && full == old(full) + [old(mags)[c].slots]
      ensures old(mags)[c].Some? && |old(mags)[c].slots| < KMEM_MAG_CAPACITY ==>
        mags == old(mags)[c := Some(old(mags)[c].slots + [o])] && full == old(full) && empty == old(empty)
    {
      hide Carved, Bytes, Holds, Flat;
      assert |Slots(mags[c])| <= KMEM_MAG_CAPACITY && full + [] == full && [] + [o] == [o];
      var has := EnsureMag(c, can);
      if !has {
        return Dropped;
      }
      if |mags[c].slots| < KMEM_MAG_CAPACITY {
        Push(c, o);
        return Kept;
      }
      NotInMag(mags, owner, c, o);
      CarveSwap(can, c);
      if mags[c].None? {
        return NullMagazine;
      }
      Push(c, o);
      r := Kept;
    }

    method CarveSwap(can: bool, c: nat)
      requires Valid() && c < |mags| && mags[c].Some? && |mags[c].slots| == KMEM_MAG_CAPACITY
      modifies this`mags, this`full, this`empty, this`fullCount, this`emptyCount, this`owner
      ensures Valid() && |mags| == |old(mags)| && owner.Keys == old(owner).Keys && SameLive(old(owner), owner)
      ensures mags == old(mags)[c := if can || old(empty) != [] then Some([]) else Mag.None] && full == old(full) + [old(mags)[c].slots]
      ensures forall o :: o in owner && o !in old(mags)[c].slots ==> owner[o] == old(owner)[o]
    {
      hide Carved, Bytes, Stocked;
      SwapFull(c, can);
      CarveSame(old(owner), owner, source.pages, size, chunk, end);
    }

    /** One pass of the refill loop. */
    method Carve(c: nat) returns (ok: bool)
      requires Valid() && source.Valid() && c < |mags| && mags[c].Some? && |mags[c].slots| < KMEM_MAG_CAPACITY
      modifies this`chunk, this`remaining, this`end, this`owner, this`mags, source
      ensures Valid() && source.Valid() && |mags| == |old(mags)| && mags[c].Some? && Grown(old(source.pages), source.pages, size)
      ensures ok <==> old(remaining) > 0 || !old(source.Short(chunkSize / PAGE_SIZE))
      ensures if ok then exists o :: o !in old(owner) && mags == old(mags)[c := Some(old(mags)[c].slots + [o])]
              else mags == old(mags) && source.Short(chunkSize / PAGE_SIZE)
      ensures SameLive(old(owner), owner) && forall o :: o in old(owner) ==> o in owner
    {
      hide Holds, Flat, Carved, Bytes;
      ghost var owner0, q := owner, mags[c].slots;
      assert Slots(mags[c]) == q;
      var o;
      ok, o := Refill(c);
      if ok {
        HoldsPush(q, owner0, Cpu(c), o);
        CpuStep(mags, owner0, c, Some(q + [o]), o, Cpu(c));
        HoldsOther(Flat(full), owner0, Depot, o, Cpu(c));
        mags := mags[c := Some(mags[c].slots + [o])];
      }
    }
  }

  /** None of the objects had been carved before. */
  ghost predicate AllNew(q: seq<nat>, owner: Owners) {
    forall i :: 0 <= i < |q| ==> q[i] !in owner
  }

  predicate LastIs(q: seq<nat>, o: nat) {
    q != [] && q[|q| - 1] == o
  }

  /** What a CPU frees and keeps it hands out again at the next request, without asking for memory. */
  method FreeThenMalloc(k: SizeClass, c: nat, o: nat, can: bool) returns (r: Freed, ok: bool, p: nat)
    requires k.Valid() && k.source.Valid() && c < |k.mags| && o in k.owner && k.owner[o] == Live
    modifies k, k.source
    ensures k.Valid() && k.source.Valid()
    ensures r == Kept ==> ok && p == o && SameLive(old(k.owner), k.owner) && k.source.pages == old(k.source.pages)
  {
    hide SizeClass.Valid, Grown, SameLive, FreeOutcome, AfterMalloc, PageSource.Valid, PageSource.Short;
    ghost var before := k.owner;
    r := k.Free(c, o, can);
    ok, p := false, 0;
    if r == Kept {
      ghost var between := k.owner;
      assert LastIs(Slots(k.mags[c]), o);
      ok, p := k.Malloc(c, can);
      LiveAgain(before, between, k.owner, o, c);
    }
  }

  lemma LiveAgain(before: Owners, between: Owners, after: Owners, o: nat, c: nat)
    requires o in before && before[o] == Live
    requires SameLive(before[o := Cpu(c)], between) && SameLive(between[o := Live], after)
    ensures SameLive(before, after)
  {
  }

  /** The objects left in a magazine of `n` after an allocation, with nothing in the depot: an empty one is refilled. */
  function AfterMalloc(n: nat): nat {
    if n > 0 then n - 1 else KMEM_MAG_CAPACITY - 1
  }

  /** One CPU allocates 17 objects; the first stays in use and the last is returned. */
  method AllocateMany(k: SizeClass) returns (ok: bool, first: nat, last: nat)
    requires k.Valid() && k.source.Valid() && |k.mags| == 1 && k.mags[0].None? && k.full == [] && k.empty == [] && k.chunkSize == PAGE_SIZE
    modifies k, k.source
    ensures k.Valid() && k.source.Valid() && |k.mags| == 1
    ensures !ok ==> k.source.Short(1)
    ensures ok ==> k.empty == [] && k.mags[0].Some? && |k.mags[0].slots| == KMEM_MAG_CAPACITY - 1
    ensures ok ==> first in k.owner && k.owner[first] == Live && last in k.owner && k.owner[last] == Live && first != last
  {
    hide SizeClass.Valid, Grown;
    ok, first := k.Malloc(0, true);
    last := first;
    if !ok || |k.mags[0].slots| != KMEM_MAG_CAPACITY - 1 {
      return false, first, last;
    }
    for i := 1 to KMEM_MAG_CAPACITY + 1
      invariant k.Valid() && k.source.Valid() && |k.mags| == 1 && k.full == [] && k.empty == [] && k.mags[0].Some?
      invariant |k.mags[0].slots| == if i <= KMEM_MAG_CAPACITY then KMEM_MAG_CAPACITY - i else KMEM_MAG_CAPACITY - 1
      invariant first in k.owner && k.owner[first] == Live && last in k.owner && k.owner[last] == Live && (i > 1 ==> first != last)
    {
      ok, last := k.Malloc(0, true);
      if !ok || |k.mags[0].slots| != (if i < KMEM_MAG_CAPACITY then KMEM_MAG_CAPACITY - 1 - i else KMEM_MAG_CAPACITY - 1) {
        return false, first, last;
      }
    }
    ok := true;
  }

  /** One CPU allocates 17 objects, so that its second magazine lacks one, and frees two: the first free fills the
      magazine, and the second, when no page is left, leaves the CPU without one. */
  method FullExample(source: PageSource) returns (reached: bool, r: Freed)
    requires source.Valid()
    modifies source
    ensures if reached then r == NullMagazine else source.Short(1)
  {
    hide SizeClass.Valid, Grown;
    var k := new SizeClass(128, PAGE_SIZE, 1, source);
    var first, last;
    reached, first, last := AllocateMany(k);
    if reached {
      r := k.Free(0, first, true);
      assert k.owner[last] == Live;
      r := k.Free(0, last, false);
    } else {
      r := Kept;
    }
  }

  /** The same objects are in use. */
  ghost predicate SameLive(owner: Owners, owner': Owners) {
    forall o :: (o in owner' && owner'[o] == Live) <==> (o in owner && owner[o] == Live)
  }

  lemma CarvedPositive(owner: Owners, pages: Pages, size: nat, chunk: nat, end: nat, o: nat)
    requires Carved(owner, pages, size, chunk, end) && o in owner
    ensures o > 0
  {
  }

  lemma NotInMag(mags: seq<Mag>, owner: Owners, c: nat, o: nat)
    requires CpusHold(mags, owner) && c < |mags| && o in owner && owner[o] == Live
    ensures o !in Slots(mags[c])
  {
    assert Holds(Slots(mags[c]), owner, Cpu(c));
  }

  lemma AllAt(q: seq<nat>, owner: Owners, w: Owner)
    requires Holds(q, owner, w)
    ensures forall o :: o in q ==> o in owner && owner[o] == w
  {
  }

  lemma AtEnd(r: seq<nat>, q: seq<nat>, owner: Owners, w: Owner)
    requires Holds(r + q, owner, w)
    ensures forall o :: o in q ==> o in owner && owner[o] == w
  {
    forall o | o in q ensures o in r + q { }
  }

  lemma FlatPush(full: seq<seq<nat>>, q: seq<nat>)
    ensures Flat(full + [q]) == Flat(full) + q
  {
    assert (full + [q])[..|full|] == full;
  }

  lemma FlatPop(full: seq<seq<nat>>)
    requires full != []
    ensures Flat(full) == Flat(full[..|full| - 1]) + full[|full| - 1]
  {
  }

  lemma SameGrown(pages: Pages, size: nat)
    ensures Grown(pages, pages, size)
  {
  }

  lemma GrownTwice(p0: Pages, p1: Pages, p2: Pages, size: nat)
    requires Grown(p0, p1, size) && Grown(p1, p2, size)
    ensures Grown(p0, p2, size)
  {
  }

  lemma NewChunk(owner: Owners, before: Pages, after: Pages, size: nat, chunk: nat, bytes: nat, page: nat)
    requires 0 < size <= bytes && bytes % PAGE_SIZE == 0 && page > 0 && Carved(owner, before, size, chunk, chunk)
    requires forall p :: page <= p < page + bytes / PAGE_SIZE ==> p !in before
    requires forall p :: p in after <==> p in before || page <= p < page + bytes / PAGE_SIZE
    requires forall p :: p in after ==> after[p] == if p in before then before[p] else size
    ensures bytes / size > 0 && Carved(owner, after, size, page * PAGE_SIZE, page * PAGE_SIZE + Bytes(bytes / size, size))
  {
    BytesFit(bytes, size);
    var lo, hi := page * PAGE_SIZE, page * PAGE_SIZE + Bytes(bytes / size, size);
    hide Bytes;
    forall a: nat | lo <= a < hi ensures page <= a / PAGE_SIZE < page + bytes / PAGE_SIZE {
      PageWithin(a, page, bytes / PAGE_SIZE);
    }
    CarveChunk(owner, before, after, size, chunk, lo, hi);
  }

  /** Pages already in use stay as they are; new ones are cut into `size`. */
  ghost predicate Grown(pages: Pages, pages': Pages, size: nat) {
    (forall p :: p in pages ==> p in pages' && pages'[p] == pages[p]) && forall p :: p in pages' && p !in pages ==> pages'[p] == size
  }

  // ----- all classes together -----

  function PageOf(a: nat): nat { a / PAGE_SIZE }

  /** The pages that hold `size` bytes. */
  function PagesFor(size: nat): (n: nat)
    ensures size <= n * PAGE_SIZE < size + PAGE_SIZE
  {
    (size + PAGE_SIZE - 1) / PAGE_SIZE
  }

  predicate PowerOfTwo(n: nat) {
    n == 1 || (n > 1 && n % 2 == 0 && PowerOfTwo(n / 2))
  }

  /** There is one power of two from `n` up to below twice `n`. */
  ghost function PowerAbove(n: nat): (p: nat)
    requires n > 0
    ensures PowerOfTwo(p) && n <= p < 2 * n
  {
    if n == 1 then 1 else 2 * PowerAbove((n + 1) / 2)
  }

  /** A block straight from the page allocator: it starts on a page, and its pages are cut into nothing. */
  ghost predicate LargeOk(pages: Pages, large: map<nat, nat>) {
    && (forall a :: a in large ==> a > 0 && a % PAGE_SIZE == 0 && large[a] > 0 && BlockIn(pages, PageOf(a), large[a]))
    && forall a, b :: a in large && b in large && a != b ==> Apart(PageOf(a), large[a], PageOf(b), large[b])
  }

  ghost predicate BlockIn(pages: Pages, first: nat, n: nat) {
    forall p :: first <= p < first + n ==> p in pages && pages[p] == 0
  }

  method MakeClasses(src: PageSource, n: nat) returns (list: seq<SizeClass>)
    ensures |list| == KMEM_NUM_CLASSES && forall j, k :: 0 <= j < k < |list| ==> list[j] != list[k]
    ensures forall j :: 0 <= j < |list| ==> fresh(list[j]) && list[j].source == src && list[j].Valid() && list[j].size == SIZES[j]
    ensures forall j :: 0 <= j < |list| ==> list[j].owner == map[] && |list[j].mags| == n
  {
    hide SizeClass.Valid;
    list := [];
    for i := 0 to KMEM_NUM_CLASSES
      invariant |list| == i && forall j, k :: 0 <= j < k < i ==> list[j] != list[k]
      invariant forall j :: 0 <= j < i ==> fresh(list[j]) && list[j].source == src && list[j].Valid() && list[j].size == SIZES[j]
      invariant forall j :: 0 <= j < i ==> list[j].owner == map[] && |list[j].mags| == n
    {
      ChunkHolds(i);
      var k := new SizeClass(SIZES[i], CHUNKS[i], n, src);
      list := list + [k];
    }
  }

  class Allocator {
    const source: PageSource
    const classes: seq<SizeClass>
    /** The blocks of whole pages in use, with their lengths in pages. */
    var large: map<nat, nat>
    const cpus: nat

    /** `kmem_init`. */
    constructor (n: nat, first: nat, last: nat)
      requires first > 0
      ensures Valid() && cpus == n && large == map[] && forall i, o :: 0 <= i < |classes| ==> !InUse(i, o)
    {
      var src := new PageSource(first, last);
      var list := MakeClasses(src, n);
      source, classes, cpus, large := src, list, n, map[];
      hide SizeClass.Valid;
    }

    ghost predicate Valid()
      reads this, source, classes
    {
      && source.Valid() && |classes| == KMEM_NUM_CLASSES && LargeOk(source.pages, large)
      && (forall i, j :: 0 <= i < j < |classes| ==> classes[i] != classes[j])
      && forall i :: 0 <= i < |classes| ==>
        classes[i].source == source && classes[i].Valid() && classes[i].size == SIZES[i] && |classes[i].mags| == cpus
    }

    /** Object `o` of class `i` is in use. */
    ghost predicate InUse(i: nat, o: nat)
      requires i < |classes|
      reads this, classes
    {
      o in classes[i].owner && classes[i].owner[o] == Live
    }

    /** What `kfree` reads from the page of an object tells its class. */
    lemma ClassOf(i: nat, o: nat)
      requires Valid() && i < |classes| && o in classes[i].owner
      ensures o / PAGE_SIZE in source.pages && source.pages[o / PAGE_SIZE] == SIZES[i]
    {
      assert InPages(source.pages, o, o + SIZES[i], SIZES[i]);
    }

    /** Objects carved for different requests never overlap, whatever their classes. */
    lemma NeverOverlap(i: nat, o: nat, j: nat, p: nat)
      requires Valid() && i < |classes| && j < |classes| && o in classes[i].owner && p in classes[j].owner && (i != j || o != p)
      ensures Apart(o, SIZES[i], p, SIZES[j])
    {
      if i != j {
        var a := if o >= p then o else p;
        assert InPages(source.pages, o, o + SIZES[i], SIZES[i]) && InPages(source.pages, p, p + SIZES[j], SIZES[j]);
        assert o <= a < o + SIZES[i] ==> source.pages[a / PAGE_SIZE] == SIZES[i];
        assert p <= a < p + SIZES[j] ==> source.pages[a / PAGE_SIZE] == SIZES[j];
        Distinct(i, j);
      }
    }

    /** The same for an object and a block of pages. */
    lemma NeverOverlapLarge(i: nat, o: nat, b: nat)
      requires Valid() && i < |classes| && o in classes[i].owner && b in large
      ensures Apart(o, SIZES[i], b, large[b] * PAGE_SIZE)
    {
      var a := if o >= b then o else b;
      assert InPages(source.pages, o, o + SIZES[i], SIZES[i]) && BlockIn(source.pages, PageOf(b), large[b]);
      assert o <= a < o + SIZES[i] ==> source.pages[a / PAGE_SIZE] == SIZES[i];
      if b <= a < b + large[b] * PAGE_SIZE {
        PageWithin(a, PageOf(b), large[b]);
      }
      assert SIZES[i] > 0;
    }

    /** A class that was not touched is still valid when its pages are still there. */
    twostate lemma ClassKept(k: SizeClass)
      requires old(k.Valid()) && unchanged(k) && KeepsSize(old(k.source.pages), k.source.pages, k.size)
      ensures k.Valid()
    {
      CarveKept(k.owner, old(k.source.pages), k.source.pages, k.size, k.chunk, k.end);
    }

    /** CPU `c` has or gets a magazine of class `i`, and an object is in it, in the depot, in the chunk or in a chunk to
        be had. */
    ghost predicate Serves(i: nat, c: nat, can: bool)
      requires Valid() && i < |classes| && c < cpus
      reads this, source, classes
    {
      var k := classes[i];
      && (can || k.mags[c].Some? || k.empty != [])
      && (Slots(k.mags[c]) != [] || k.full != [] || k.remaining > 0 || !k.source.Short(k.chunkSize / PAGE_SIZE))
    }

    /** `kmalloc` on CPU `c` of at most KMEM_MAX_DIRECT bytes. */
    method KmallocSmall(size: nat, c: nat, can: bool) returns (ptr: nat, ghost i: nat)
      requires Valid() && c < cpus && 0 < size <= 2048
      modifies source, classes
      ensures Valid() && i < KMEM_NUM_CLASSES && size <= SIZES[i] && forall j :: 0 <= j < i ==> SIZES[j] < size
      ensures ptr != 0 <==> old(Serves(i, c, can))
      ensures ptr == 0 ==> forall j, o :: 0 <= j < KMEM_NUM_CLASSES ==> (InUse(j, o) <==> old(InUse(j, o)))
      ensures ptr != 0 ==> !old(InUse(i, ptr))
      ensures ptr != 0 ==> forall j, o :: 0 <= j < KMEM_NUM_CLASSES ==> (InUse(j, o) <==> old(InUse(j, o)) || (j == i && o == ptr))
    {
      var k := GetIndex(size);
      i := k;
      hide SizeClass.Valid, LargeOk, Serves;
      ptr := Serve(k, c, can);
    }

    /** One object of class `i`. */
    method Serve(i: nat, c: nat, can: bool) returns (ptr: nat)
      requires Valid() && c < cpus && i < KMEM_NUM_CLASSES
      modifies source, classes
      ensures Valid() && (ptr != 0 <==> old(Serves(i, c, can)))
      ensures ptr == 0 ==> forall j, o :: 0 <= j < KMEM_NUM_CLASSES ==> (InUse(j, o) <==> old(InUse(j, o)))
      ensures ptr != 0 ==> !old(InUse(i, ptr))
      ensures ptr != 0 ==> forall j, o :: 0 <= j < KMEM_NUM_CLASSES ==> (InUse(j, o) <==> old(InUse(j, o)) || (j == i && o == ptr))
    {
      hide SizeClass.Valid, LargeOk;
      var ok, o := classes[i].Malloc(c, can);
      forall j | 0 <= j < |classes| && j != i ensures classes[j].Valid() { ClassKept(classes[j]); }
      LargeKept(old(source.pages), source.pages, large);
      ptr := if ok then o else 0;
    }

    /** `kmem_alloc_large`: the pages needed, rounded up to a power of two. */
    method AllocLarge(size: nat) returns (ptr: nat, ghost n: nat)
      requires Valid() && size > 0
      modifies source, this`large
      ensures Valid() && PowerOfTwo(n) && PagesFor(size) <= n < 2 * PagesFor(size)
      ensures ptr != 0 <==> size <= 1024 * PAGE_SIZE && !old(source.Short(n))
      ensures ptr == 0 ==> large == old(large)
      ensures ptr != 0 ==> ptr !in old(large) && large == old(large)[ptr := n]
    {
      hide SizeClass.Valid;
      var pages := PagesFor(size);
      n := PowerAbove(pages);
      if pages > 1024 {
        return 0, n;
      }
      var m := 1;
      while m < pages
        invariant 0 < m < 2 * pages && PowerOfTwo(m)
      {
        m := 2 * m;
      }
      n := m;
      var ok, first := source.AllocSlab(m, 0);
      forall j | 0 <= j < |classes| ensures classes[j].Valid() { ClassKept(classes[j]); }
      if !ok {
        return 0, n;
      }
      ptr := first * PAGE_SIZE;
      LargeMore(old(source.pages), source.pages, large, ptr, m);
      large := large[ptr := m];
    }

    /** `kmalloc`. For a small request `i` is the class it is served from. */
    method Kmalloc(size: nat, c: nat, can: bool) returns (ptr: nat, ghost i: nat, ghost n: nat)
      requires Valid() && c < cpus
      modifies this`large, source, classes
      ensures Valid() && i < KMEM_NUM_CLASSES && (size == 0 ==> ptr == 0)
      ensures 0 < size <= 2048 ==> size <= SIZES[i] && (forall j :: 0 <= j < i ==> SIZES[j] < size) && (ptr != 0 <==> old(Serves(i, c, can)))
      ensures size > 2048 ==> PowerOfTwo(n) && PagesFor(size) <= n < 2 * PagesFor(size)
      ensures size > 2048 ==> (ptr != 0 <==> size <= 1024 * PAGE_SIZE && !old(source.Short(n)))
      ensures ptr == 0 || size <= 2048 ==> large == old(large)
      ensures ptr == 0 || size > 2048 ==> forall j, o :: 0 <= j < KMEM_NUM_CLASSES ==> (InUse(j, o) <==> old(InUse(j, o)))
      ensures ptr != 0 && size <= 2048 ==> !old(InUse(i, ptr))
      ensures ptr != 0 && size <= 2048 ==>
        forall j, o :: 0 <= j < KMEM_NUM_CLASSES ==> (InUse(j, o) <==> old(InUse(j, o)) || (j == i && o == ptr))
      ensures ptr != 0 && size > 2048 ==> ptr !in old(large) && large == old(large)[ptr := n]
    {
      hide SizeClass.Valid, LargeOk;
      i, n := 0, 0;
      if size == 0 {
        return 0, 0, 0;
      }
      if size > 2048 {
        ptr, n := AllocLarge(size);
        return ptr, 0, n;
      }
      ptr, i := KmallocSmall(size, c, can);
    }

    /** `kfree` on CPU `c`: an object of class `i`, or a block of pages. */
    method Kfree(ptr: nat, c: nat, can: bool, ghost i: nat) returns (r: Freed)
      requires Valid() && c < cpus && (ptr == 0 || ptr in large || (i < KMEM_NUM_CLASSES && InUse(i, ptr)))
      modifies this`large, source, classes
      ensures Valid()
      ensures large == if ptr in old(large) then old(large) - {ptr} else old(large)
      ensures forall p :: p in source.pages <==> p in old(source.pages) && !(ptr in old(large) && Within(p, PageOf(ptr), old(large)[ptr]))
      ensures ptr == 0 || ptr in old(large) || r != Kept ==> forall j, o :: 0 <= j < KMEM_NUM_CLASSES ==> (InUse(j, o) <==> old(InUse(j, o)))
      ensures ptr != 0 && ptr !in old(large) && r == Kept ==>
        forall j, o :: 0 <= j < KMEM_NUM_CLASSES ==> (InUse(j, o) <==> old(InUse(j, o)) && !(j == i && o == ptr))
      ensures ptr != 0 && ptr !in old(large) ==> r == FreeOutcome(old(classes[i].mags)[c], old(classes[i].empty) != [], can)
    {
      if ptr == 0 {
        return Kept;
      }
      if ptr !in large {
        ClassOf(i, ptr);
      }
      var size := source.pages[PageOf(ptr)];
      hide SizeClass.Valid;
      if size == 0 {
        FreeLarge(ptr);
        return Kept;
      }
      var k := GetIndex(size);
      ClassFound(size, k, i);
      r := TakeBack(k, ptr, c, can);
    }

    /** One object of class `i` comes back. */
    method TakeBack(i: nat, ptr: nat, c: nat, can: bool) returns (r: Freed)
      requires Valid() && c < cpus && i < KMEM_NUM_CLASSES && InUse(i, ptr)
      modifies classes
      ensures Valid() && r == FreeOutcome(old(classes[i].mags)[c], old(classes[i].empty) != [], can)
      ensures forall j, o :: 0 <= j < KMEM_NUM_CLASSES ==> (InUse(j, o) <==> old(InUse(j, o)) && !(r == Kept && j == i && o == ptr))
    {
      hide SizeClass.Valid, LargeOk;
      r := classes[i].Free(c, ptr, can);
      forall j | 0 <= j < |classes| && j != i ensures classes[j].Valid() { ClassKept(classes[j]); }
    }

    /** `page_free` of a block. */
    method FreeLarge(ptr: nat)
      requires Valid() && ptr in large
      modifies this`large, source
      ensures Valid() && large == old(large) - {ptr}
      ensures forall p :: p in source.pages <==> p in old(source.pages) && !Within(p, PageOf(ptr), old(large)[ptr])
    {
      hide SizeClass.Valid;
      LargeLess(source.pages, large, ptr);
      source.FreePages(PageOf(ptr), large[ptr]);
      large := large - {ptr};
      forall j | 0 <= j < |classes| ensures classes[j].Valid() {
        assert SIZES[j] > 0;
        ClassKept(classes[j]);
      }
    }
  }

  lemma LargeKept(pages: Pages, pages': Pages, large: map<nat, nat>)
    requires LargeOk(pages, large) && forall p :: p in pages ==> p in pages' && pages'[p] == pages[p]
    ensures LargeOk(pages', large)
  {
  }

  lemma LargeMore(pages: Pages, pages': Pages, large: map<nat, nat>, ptr: nat, n: nat)
    requires LargeOk(pages, large) && (forall p :: p in pages ==> p in pages' && pages'[p] == pages[p]) && n > 0 && ptr > 0 && ptr % PAGE_SIZE == 0
    requires BlockIn(pages', PageOf(ptr), n) && forall p :: PageOf(ptr) <= p < PageOf(ptr) + n ==> p !in pages
    ensures ptr !in large && LargeOk(pages', large[ptr := n])
  {
    hide PageOf;
    forall a | a in large ensures Apart(PageOf(a), large[a], PageOf(ptr), n) {
      var f, g := PageOf(a), PageOf(ptr);
      var p := if f >= g then f else g;
      assert BlockIn(pages, f, large[a]);
      assert f <= p < f + large[a] ==> p in pages;
      assert g <= p < g + n ==> p !in pages;
    }
  }

  lemma LargeLess(pages: Pages, large: map<nat, nat>, ptr: nat)
    requires LargeOk(pages, large) && ptr in large
    ensures LargeOk(map p | p in pages && !Within(p, PageOf(ptr), large[ptr]) :: pages[p], large - {ptr})
    ensures PageOf(ptr) in pages && pages[PageOf(ptr)] == 0
    ensures forall p :: p in pages && Within(p, PageOf(ptr), large[ptr]) ==> pages[p] == 0
  {
    hide PageOf;
    var pages' := map p | p in pages && !Within(p, PageOf(ptr), large[ptr]) :: pages[p];
    forall a | a in large && a != ptr ensures BlockIn(pages', PageOf(a), large[a]) {
      assert Apart(PageOf(a), large[a], PageOf(ptr), large[ptr]) && BlockIn(pages, PageOf(a), large[a]);
    }
  }

  /** Looking up the size of a class gives that class. */
  lemma ClassFound(size: nat, k: int, i: nat)
    requires i < KMEM_NUM_CLASSES && size == SIZES[i]
    requires k != -1 ==> 0 <= k < KMEM_NUM_CLASSES && size <= SIZES[k] && forall j :: 0 <= j < k ==> SIZES[j] < size
    requires size > 2048 <==> k == -1
    ensures k == i
  {
    assert SIZES[15] == 2048;
    if i < 15 { Ascending(i, 15); }
    if k != -1 && k < i { Ascending(k, i); }
  }

  lemma ChunkHolds(i: nat)
    requires i < KMEM_NUM_CLASSES
    ensures 0 < SIZES[i] <= CHUNKS[i] && CHUNKS[i] % PAGE_SIZE == 0
  {
    assert SIZES[i] <= 2048;
  }

  lemma Distinct(i: nat, j: nat)
    requires i < KMEM_NUM_CLASSES && j < KMEM_NUM_CLASSES && i != j
    ensures SIZES[i] != SIZES[j]
  {
    if i < j { Ascending(i, j); } else { Ascending(j, i); }
  }
}
