/** The write-back sector cache (kernel/vfs/blk_cache.c), run by one caller at a time over a device that does not fail. */
module BlockCache {

  const BLK_CACHE_SIZE := 256

  datatype Key = Key(dev: int, sector: nat)

  /** The bytes of a sector. */
  type Data = seq<nat>

  datatype Slot = Slot(key: Key, data: Data, valid: bool, dirty: bool)

  /** The contents of the devices; a sector never written reads as blank. */
  type Disk = map<Key, Data>

  function At(disk: Disk, k: Key): Data {
    if k in disk then disk[k] else []
  }

  predicate Matches(s: Slot, k: Key) {
    s.valid && s.key == k
  }

  /** At most one valid slot a sector, dirty slots valid, and clean slots equal to the device. */
  ghost predicate Coherent(s: seq<Slot>, disk: Disk) {
    && (forall i, j :: 0 <= i < |s| && 0 <= j < |s| && s[i].valid && s[j].valid && s[i].key == s[j].key ==> i == j)
    && (forall i :: 0 <= i < |s| && s[i].dirty ==> s[i].valid)
    && (forall i :: 0 <= i < |s| && s[i].valid && !s[i].dirty ==> s[i].data == At(disk, s[i].key))
  }

  /** The cache over the device shows the plain disk: a cached sector has its value, any other the device's. */
  ghost predicate Shows(s: seq<Slot>, disk: Disk, plain: Disk) {
    && (forall i :: 0 <= i < |s| && s[i].valid ==> s[i].data == At(plain, s[i].key))
    && (forall k :: (forall i :: 0 <= i < |s| ==> !Matches(s[i], k)) ==> At(disk, k) == At(plain, k))
  }

  ghost predicate Cached(s: seq<Slot>, k: Key) {
    exists i :: 0 <= i < |s| && Matches(s[i], k)
  }

  /** The slot whose turn it is has been written back if dirty and now holds `t`; nothing else has changed. */
  ghost predicate Replaced(s: seq<Slot>, next: nat, disk: Disk, s': seq<Slot>, next': nat, disk': Disk, t: Slot) {
    && next < |s| && s' == s[next := t] && next' == (next + 1) % BLK_CACHE_SIZE
    && disk' == if s[next].dirty then disk[s[next].key := s[next].data] else disk
  }

  class Cache {
    const slots: array<Slot>
    var next: nat
    var disk: Disk
    /** The disk as it would be without a cache. */
    ghost var plain: Disk

    ghost predicate Valid()
      reads this, slots
    {
      slots.Length == BLK_CACHE_SIZE && next < BLK_CACHE_SIZE && Coherent(slots[..], disk) && Shows(slots[..], disk, plain)
    }

    /** `blk_cache_init`. */
    constructor (d: Disk)
      ensures Valid() && fresh(slots) && disk == d && plain == d
    {
      slots := new Slot[BLK_CACHE_SIZE](_ => Slot(Key(0, 0), [], false, false));
      next := 0;
      disk := d;
      plain := d;
    }

    /** `blk_cache_lookup`. */
    method Lookup(k: Key) returns (idx: int)
      requires slots.Length == BLK_CACHE_SIZE
      ensures -1 <= idx < BLK_CACHE_SIZE
      ensures idx >= 0 ==> Matches(slots[idx], k)
      ensures idx < 0 ==> forall i :: 0 <= i < slots.Length ==> !Matches(slots[i], k)
    {
      for i := 0 to BLK_CACHE_SIZE
        invariant forall j :: 0 <= j < i ==> !Matches(slots[j], k)
      {
        if slots[i].valid && slots[i].key == k {
          return i;
        }
      }
      return -1;
    }

    /** `blk_cache_evict`. */
    method Evict() returns (idx: nat)
      requires Valid()
      modifies this`next, this`disk, slots
      ensures Valid() && idx == old(next) && !slots[idx].valid && !slots[idx].dirty
      ensures Replaced(old(slots[..]), old(next), old(disk), slots[..], next, disk, slots[idx])
    {
      idx := next;
      next := (next + 1) % BLK_CACHE_SIZE;
      if slots[idx].dirty {
        disk := disk[slots[idx].key := slots[idx].data];
        slots[idx] := slots[idx].(dirty := false);
      }
      slots[idx] := slots[idx].(valid := false);
      assert slots[..] == old(slots[..])[idx := slots[idx]];
      DropShows(old(slots[..]), old(disk), plain, idx, slots[..], disk);
    }

    /** `blk_cache_read`. */
    method Read(k: Key) returns (data: Data)
      requires Valid()
      modifies this`next, this`disk, slots
      ensures Valid() && data == At(plain, k)
      ensures if Cached(old(slots[..]), k) then slots[..] == old(slots[..]) && next == old(next) && disk == old(disk)
              else Replaced(old(slots[..]), old(next), old(disk), slots[..], next, disk, Slot(k, data, true, false))
    {
      var idx := Lookup(k);
      if idx >= 0 {
        assert Matches(slots[..][idx], k);
        return slots[idx].data;
      }
      data := At(disk, k);
      var free := Evict();
      FillShows(slots[..], disk, plain, free, Slot(k, data, true, false));
      slots[free] := Slot(k, data, true, false);
      assert slots[..] == old(slots[..])[free := Slot(k, data, true, false)];
    }

    /** `blk_cache_write`. */
    method Write(k: Key, data: Data)
      requires Valid()
      modifies this, slots
      ensures Valid() && plain == old(plain)[k := data]
      ensures if Cached(old(slots[..]), k) then
                && next == old(next) && disk == old(disk)
                && exists i :: 0 <= i < slots.Length && old(Matches(slots[i], k)) && slots[..] == old(slots[..])[i := Slot(k, data, true, true)]
              else Replaced(old(slots[..]), old(next), old(disk), slots[..], next, disk, Slot(k, data, true, true))
    {
      var idx := Lookup(k);
      ghost var before := slots[..];
      assert idx >= 0 ==> Matches(slots[..][idx], k);
      if idx < 0 {
        idx := Evict();
        before := slots[..];
        slots[idx] := slots[idx].(key := k, valid := true);
      }
      slots[idx] := slots[idx].(data := data, dirty := true);
      WriteShows(before, disk, plain, idx, k, data);
      assert slots[..] == before[idx := Slot(k, data, true, true)];
      plain := plain[k := data];
    }

    /** The first pass of `blk_cache_flush`: the dirty sectors of the device are listed and their flags cleared. */
    method CollectDirty(dev: int) returns (list: seq<Key>)
      requires slots.Length == BLK_CACHE_SIZE
      modifies slots
      ensures forall i :: 0 <= i < slots.Length ==> slots[i] == Cleaned(old(slots[i]), dev)
      ensures forall k :: k in list <==> exists i :: 0 <= i < slots.Length && old(Selected(slots[i], dev)) && old(slots[i]).key == k
    {
      list := [];
      for i := 0 to BLK_CACHE_SIZE
        invariant forall j :: 0 <= j < slots.Length ==> slots[j] == if j < i then Cleaned(old(slots[j]), dev) else old(slots[j])
        invariant forall k :: k in list <==> exists j :: 0 <= j < i && old(Selected(slots[j], dev)) && old(slots[j]).key == k
      {
        if slots[i].valid && slots[i].dirty && (dev < 0 || slots[i].key.dev == dev) {
          list := list + [slots[i].key];
          slots[i] := slots[i].(dirty := false);
        }
      }
    }

    /** The second pass: each listed sector that is still cached is written out. */
    method WriteOut(list: seq<Key>)
      requires slots.Length == BLK_CACHE_SIZE
      requires forall k :: k in list ==> exists i :: 0 <= i < slots.Length && Matches(slots[i], k)
      requires forall i :: 0 <= i < slots.Length && slots[i].valid ==> slots[i].data == At(plain, slots[i].key)
      modifies this`disk
      ensures forall k :: At(disk, k) == if k in list then At(plain, k) else At(old(disk), k)
    {
      for i := 0 to |list|
        invariant forall k :: At(disk, k) == if k in list[..i] then At(plain, k) else At(old(disk), k)
      {
        var k := list[i];
        assert list[..i + 1] == list[..i] + [k];
        assert k in list;
        var idx := Lookup(k);
        if idx >= 0 {
          disk := disk[k := slots[idx].data];
        }
      }
      assert list[..|list|] == list;
    }

    /** `blk_cache_flush`; a negative device number means every device (`blk_cache_flush_all`). */
    method Flush(dev: int)
      requires Valid()
      modifies this`disk, slots
      ensures Valid()
      ensures forall k: Key :: At(disk, k) == if dev < 0 || k.dev == dev then At(plain, k) else At(old(disk), k)
      ensures forall i :: 0 <= i < slots.Length ==> slots[i] == Cleaned(old(slots[i]), dev)
    {
      var list := CollectDirty(dev);
      ghost var s, s' := old(slots[..]), slots[..];
      forall k | k in list ensures exists i :: 0 <= i < slots.Length && Matches(slots[i], k) {
        var i :| 0 <= i < slots.Length && old(Selected(slots[i], dev)) && old(slots[i]).key == k;
        assert Matches(slots[i], k);
      }
      WriteOut(list);
      FlushShows(s, old(disk), plain, dev, list, s', disk);
    }

    /** `blk_cache_invalidate`. */
    method Invalidate(k: Key)
      requires Valid()
      modifies slots
      ensures (forall i :: 0 <= i < slots.Length && old(Matches(slots[i], k)) ==> !old(slots[i]).dirty) <==> Valid()
      ensures forall i :: 0 <= i < slots.Length ==>
                slots[i] == if old(Matches(slots[i], k)) then old(slots[i]).(valid := false) else old(slots[i])
    {
      var idx := Lookup(k);
      if idx >= 0 {
        ghost var clean := !slots[idx].dirty;
        if clean {
          DropShows(slots[..], disk, plain, idx, slots[..][idx := slots[idx].(valid := false)], disk);
        }
        slots[idx] := slots[idx].(valid := false);
        assert !clean ==> slots[..][idx].dirty && !slots[..][idx].valid;
      }
    }
  }

  // ----- how long a sector stays -----

  /** How many more misses there are before the turn of slot `i` has come. */
  function Turns(next: nat, i: nat): int {
    if i >= next then i - next else i + BLK_CACHE_SIZE - next
  }

  /** The sector is cached and outlasts `n` misses. */
  ghost predicate Lasts(s: seq<Slot>, next: nat, k: Key, n: nat) {
    exists i: nat :: i < |s| && Matches(s[i], k) && n <= Turns(next, i)
  }

  /** Over `m` misses no sector has gone before its time. */
  ghost predicate Outlast(s: seq<Slot>, next: nat, s': seq<Slot>, next': nat, m: nat) {
    forall k, n: nat :: n >= m && Lasts(s, next, k, n) ==> Lasts(s', next', k, n - m)
  }

  lemma SameLasts(s: seq<Slot>, next: nat, s': seq<Slot>)
    requires |s'| == |s| && forall i, k :: 0 <= i < |s| && Matches(s[i], k) ==> Matches(s'[i], k)
    ensures Outlast(s, next, s', next, 0)
  {
    forall k, n: nat | Lasts(s, next, k, n) ensures Lasts(s', next, k, n) {
      var i: nat :| i < |s| && Matches(s[i], k) && n <= Turns(next, i);
      assert Matches(s'[i], k);
    }
  }

  /** A miss brings every sector one turn nearer its end, and the new one outlasts all other slots. */
  lemma MissLasts(s: seq<Slot>, next: nat, disk: Disk, s': seq<Slot>, next': nat, disk': Disk, t: Slot)
    requires |s| == BLK_CACHE_SIZE && Replaced(s, next, disk, s', next', disk', t) && t.valid
    ensures Outlast(s, next, s', next', 1) && Lasts(s', next', t.key, BLK_CACHE_SIZE - 1)
  {
    forall k, n: nat | n >= 1 && Lasts(s, next, k, n) ensures Lasts(s', next', k, n - 1) {
      var i: nat :| i < |s| && Matches(s[i], k) && n <= Turns(next, i);
      assert s'[i] == s[i];
    }
    assert Matches(s'[next], t.key);
  }

  lemma OutlastJoin(s: seq<Slot>, next: nat, s1: seq<Slot>, next1: nat, s2: seq<Slot>, next2: nat, m: nat, n: nat)
    requires Outlast(s, next, s1, next1, m) && Outlast(s1, next1, s2, next2, n)
    ensures Outlast(s, next, s2, next2, m + n)
  {
    forall k, j: nat | j >= m + n && Lasts(s, next, k, j) ensures Lasts(s2, next2, k, j - (m + n)) {
      assert Lasts(s1, next1, k, j - m);
      assert Lasts(s2, next2, k, j - m - n);
    }
  }

  // ----- whole runs -----

  datatype Op = ReadOp(k: Key) | WriteOp(k: Key, data: Data) | FlushOp(dev: int)

  /** What a disk without a cache holds after the operations. */
  function PlainAfter(plain: Disk, ops: seq<Op>): Disk
    decreases |ops|
  {
    if ops == [] then plain
    else
      var op := ops[|ops| - 1];
      var d := PlainAfter(plain, ops[..|ops| - 1]);
      if op.WriteOp? then d[op.k := op.data] else d
  }

  /** What the reads among them return. */
  function PlainReads(plain: Disk, ops: seq<Op>): seq<Data>
    decreases |ops|
  {
    if ops == [] then []
    else
      var op, front := ops[|ops| - 1], ops[..|ops| - 1];
      PlainReads(plain, front) + if op.ReadOp? then [At(PlainAfter(plain, front), op.k)] else []
  }

  /** One operation. `missed` says whether it had to replace a slot; a sector read or written then lasts. */
  method RunOp(c: Cache, op: Op) returns (answer: seq<Data>, ghost missed: nat)
    requires c.Valid()
    modifies c, c.slots
    ensures c.Valid() && answer == (if op.ReadOp? then [At(old(c.plain), op.k)] else [])
    ensures c.plain == if op.WriteOp? then old(c.plain)[op.k := op.data] else old(c.plain)
    ensures missed == if op.FlushOp? || Cached(old(c.slots[..]), op.k) then 0 else 1
    ensures Outlast(old(c.slots[..]), old(c.next), c.slots[..], c.next, missed)
    ensures missed == 1 ==> !op.FlushOp? && Lasts(c.slots[..], c.next, op.k, BLK_CACHE_SIZE - 1)
  {
    ghost var s, next, disk := c.slots[..], c.next, c.disk;
    missed := if op.FlushOp? || Cached(s, op.k) then 0 else 1;
    hide Coherent, Shows, Outlast, Lasts;
    match op
    case ReadOp(k) =>
      var data := c.Read(k);
      answer := [data];
      if missed == 1 {
        MissLasts(s, next, disk, c.slots[..], c.next, c.disk, Slot(k, data, true, false));
      } else {
        SameLasts(s, next, c.slots[..]);
      }
    case WriteOp(k, data) =>
      c.Write(k, data);
      answer := [];
      if missed == 1 {
        MissLasts(s, next, disk, c.slots[..], c.next, c.disk, Slot(k, data, true, true));
      } else {
        SameLasts(s, next, c.slots[..]);
      }
    case FlushOp(dev) =>
      c.Flush(dev);
      answer := [];
      SameLasts(s, next, c.slots[..]);
  }

  /** Any sequence of operations answers as the plain disk does, and a sector stays cached until as many others have
      been brought in as there are slots. */
  method RunAll(c: Cache, ops: seq<Op>) returns (answers: seq<Data>, ghost misses: nat)
    requires c.Valid()
    modifies c, c.slots
    ensures c.Valid() && answers == PlainReads(old(c.plain), ops) && c.plain == PlainAfter(old(c.plain), ops)
    ensures misses <= |ops| && Outlast(old(c.slots[..]), old(c.next), c.slots[..], c.next, misses)
  {
    answers, misses := [], 0;
    SameLasts(c.slots[..], c.next, c.slots[..]);
    hide Outlast, Cached, Lasts;
    for i := 0 to |ops|
      invariant c.Valid() && answers == PlainReads(old(c.plain), ops[..i]) && c.plain == PlainAfter(old(c.plain), ops[..i])
      invariant misses <= i && Outlast(old(c.slots[..]), old(c.next), c.slots[..], c.next, misses)
    {
      assert ops[..i + 1][..i] == ops[..i];
      ghost var s, next := c.slots[..], c.next;
      var answer, missed := RunOp(c, ops[i]);
      OutlastJoin(old(c.slots[..]), old(c.next), s, next, c.slots[..], c.next, misses, missed);
      answers, misses := answers + answer, misses + missed;
    }
    assert ops[..|ops|] == ops;
  }

  predicate Selected(s: Slot, dev: int) {
    s.valid && s.dirty && (dev < 0 || s.key.dev == dev)
  }

  function Cleaned(s: Slot, dev: int): Slot {
    if Selected(s, dev) then s.(dirty := false) else s
  }

  lemma FlushShows(s: seq<Slot>, disk: Disk, plain: Disk, dev: int, list: seq<Key>, s': seq<Slot>, disk': Disk)
    requires Coherent(s, disk) && Shows(s, disk, plain) && |s'| == |s|
    requires forall i :: 0 <= i < |s| ==> s'[i] == Cleaned(s[i], dev)
    requires forall k :: k in list <==> exists i :: 0 <= i < |s| && Selected(s[i], dev) && s[i].key == k
    requires forall k :: At(disk', k) == if k in list then At(plain, k) else At(disk, k)
    ensures Coherent(s', disk') && Shows(s', disk', plain)
    ensures forall k: Key :: At(disk', k) == if dev < 0 || k.dev == dev then At(plain, k) else At(disk, k)
  {
    forall i | 0 <= i < |s'| && s'[i].valid && !s'[i].dirty ensures s'[i].data == At(disk', s'[i].key) {
    }
    forall k | forall i :: 0 <= i < |s'| ==> !Matches(s'[i], k) ensures At(disk', k) == At(plain, k) {
      forall i | 0 <= i < |s| ensures !Matches(s[i], k) { assert !Matches(s'[i], k); }
    }
    forall k: Key | dev < 0 || k.dev == dev ensures At(disk', k) == At(plain, k) {
      if i :| 0 <= i < |s'| && Matches(s'[i], k) {
        assert !s'[i].dirty;
      }
    }
  }

  lemma WriteShows(s: seq<Slot>, disk: Disk, plain: Disk, idx: nat, k: Key, data: Data)
    requires Coherent(s, disk) && Shows(s, disk, plain) && idx < |s|
    requires Matches(s[idx], k) || (!s[idx].valid && forall i :: 0 <= i < |s| ==> !Matches(s[i], k))
    ensures Coherent(s[idx := Slot(k, data, true, true)], disk) && Shows(s[idx := Slot(k, data, true, true)], disk, plain[k := data])
  {
    var s' := s[idx := Slot(k, data, true, true)];
    forall h | forall i :: 0 <= i < |s'| ==> !Matches(s'[i], h) ensures At(disk, h) == At(plain[k := data], h) {
      assert !Matches(s'[idx], h);
      forall i | 0 <= i < |s| ensures !Matches(s[i], h) { assert i != idx ==> s'[i] == s[i]; }
    }
  }

  lemma DropShows(s: seq<Slot>, disk: Disk, plain: Disk, idx: nat, s': seq<Slot>, disk': Disk)
    requires Coherent(s, disk) && Shows(s, disk, plain) && idx < |s| && s' == s[idx := s[idx].(valid := false, dirty := false)]
    requires disk' == if s[idx].dirty then disk[s[idx].key := s[idx].data] else disk
    ensures Coherent(s', disk') && Shows(s', disk', plain)
  {
    forall k | forall i :: 0 <= i < |s'| ==> !Matches(s'[i], k) ensures At(disk', k) == At(plain, k) {
      if !Matches(s[idx], k) {
        forall i | 0 <= i < |s| ensures !Matches(s[i], k) { assert i != idx ==> s'[i] == s[i]; }
      }
    }
  }

  lemma FillShows(s: seq<Slot>, disk: Disk, plain: Disk, idx: nat, t: Slot)
    requires Coherent(s, disk) && Shows(s, disk, plain) && idx < |s| && !s[idx].valid && t.valid
    requires (forall i :: 0 <= i < |s| ==> !Matches(s[i], t.key)) && t.data == At(plain, t.key) && !t.dirty
    ensures Coherent(s[idx := t], disk) && Shows(s[idx := t], disk, plain)
  {
    var s' := s[idx := t];
    forall k | forall i :: 0 <= i < |s'| ==> !Matches(s'[i], k) ensures At(disk, k) == At(plain, k) {
      assert !Matches(s'[idx], k);
      forall i | 0 <= i < |s| ensures !Matches(s[i], k) { assert i != idx ==> s'[i] == s[i]; }
    }
  }
}
