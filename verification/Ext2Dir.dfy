/** Adding, removing and looking up directory entries (kernel/vfs/ext2.c). */
module Ext2Dir {
  import opened Ext2DirBlock

  // ----- names and entries -----

  /** The inode number the first entry of that name gives, 0 if there is none. */
  function Find(entries: seq<Dirent>, name: Bytes): nat {
    if entries == [] then 0 else if entries[0].name == name then entries[0].ino else Find(entries[1..], name)
  }

  predicate Absent(entries: seq<Dirent>, name: Bytes) {
    forall i :: 0 <= i < |entries| ==> entries[i].name != name
  }

  predicate Unique(entries: seq<Dirent>) {
    forall i, j :: 0 <= i < j < |entries| ==> entries[i].name != entries[j].name
  }

  lemma {:induction false} FindJoin(x: seq<Dirent>, y: seq<Dirent>, name: Bytes)
    requires Absent(x, name)
    ensures Find(x + y, name) == Find(y, name)
  {
    if x == [] {
      assert x + y == y;
    } else {
      assert (x + y)[1..] == x[1..] + y;
      FindJoin(x[1..], y, name);
    }
  }

  lemma {:induction false} FindAbsent(x: seq<Dirent>, name: Bytes)
    requires Absent(x, name)
    ensures Find(x, name) == 0
  {
    if x != [] {
      FindAbsent(x[1..], name);
    }
  }

  /** An entry in the middle does not affect the lookup of another name. */
  lemma {:induction false} FindOther(x: seq<Dirent>, d: Dirent, y: seq<Dirent>, name: Bytes)
    requires d.name != name
    ensures Find(x + [d] + y, name) == Find(x + y, name)
  {
    if x == [] {
      assert (x + [d] + y)[1..] == y && x + y == y;
    } else {
      assert (x + [d] + y)[1..] == x[1..] + [d] + y && (x + y)[1..] == x[1..] + y;
      FindOther(x[1..], d, y, name);
    }
  }

  /** Inserting a new name: it is found, every other name resolves as before, names stay unique. */
  lemma AddFinds(x: seq<Dirent>, d: Dirent, y: seq<Dirent>, name: Bytes)
    requires Unique(x + y) && Absent(x + y, d.name)
    ensures Unique(x + [d] + y) && Find(x + [d] + y, d.name) == d.ino
    ensures name != d.name ==> Find(x + [d] + y, name) == Find(x + y, name)
  {
    var before, after := x + y, x + [d] + y;
    assert Absent(x, d.name) by {
      forall i | 0 <= i < |x| ensures x[i].name != d.name { assert before[i] == x[i]; }
    }
    assert Absent(y, d.name) by {
      forall i | 0 <= i < |y| ensures y[i].name != d.name { assert before[|x| + i] == y[i]; }
    }
    assert after == x + ([d] + y);
    FindJoin(x, [d] + y, d.name);
    forall i, j | 0 <= i < j < |after| ensures after[i].name != after[j].name {
      InsertedAt(x, d, y, i);
      InsertedAt(x, d, y, j);
    }
    if name != d.name {
      FindOther(x, d, y, name);
    }
  }

  lemma InsertedAt(x: seq<Dirent>, d: Dirent, y: seq<Dirent>, i: nat)
    requires i < |x + [d] + y|
    ensures (x + [d] + y)[i] == if i < |x| then (x + y)[i] else if i == |x| then d else (x + y)[i - 1]
  {
  }

  /** Removing the entry of a unique name: it is no longer found, every other name resolves as before. */
  lemma RemoveFinds(x: seq<Dirent>, d: Dirent, y: seq<Dirent>, name: Bytes)
    requires Unique(x + [d] + y)
    ensures Unique(x + y) && Absent(x + y, d.name) && Find(x + y, d.name) == 0
    ensures name != d.name ==> Find(x + y, name) == Find(x + [d] + y, name)
  {
    var before, after := x + [d] + y, x + y;
    forall i | 0 <= i < |after| ensures after[i].name != d.name {
      InsertedAt(x, d, y, |x|);
      InsertedAt(x, d, y, if i < |x| then i else i + 1);
    }
    forall i, j | 0 <= i < j < |after| ensures after[i].name != after[j].name {
      InsertedAt(x, d, y, if i < |x| then i else i + 1);
      InsertedAt(x, d, y, if j < |x| then j else j + 1);
    }
    FindAbsent(after, d.name);
    if name != d.name {
      FindOther(x, d, y, name);
    }
  }

  // ----- one block, in the buffer it was read into -----

  method WriteInode(buf: array<Byte>, o: nat, ino: nat)
    requires o + 8 <= buf.Length && ino < 0x1_0000_0000
    modifies buf
    ensures buf[..] == PutInode(old(buf[..]), o, ino)
  {
    buf[o] := ino % 0x100;
    buf[o + 1] := ino / 0x100 % 0x100;
    buf[o + 2] := ino / 0x1_0000 % 0x100;
    buf[o + 3] := ino / 0x100_0000;
  }

  method WriteRec(buf: array<Byte>, o: nat, rec: nat)
    requires o + 8 <= buf.Length && rec < 0x1_0000
    modifies buf
    ensures buf[..] == PutRec(old(buf[..]), o, rec)
  {
    buf[o + 4] := rec % 0x100;
    buf[o + 5] := rec / 0x100;
  }

  method CopyName(buf: array<Byte>, o: nat, name: Bytes)
    requires o + |name| <= buf.Length
    modifies buf
    ensures buf[..] == old(buf[..o]) + name + old(buf[o + |name|..])
  {
    ghost var c := buf[..];
    for i := 0 to |name|
      invariant buf[..] == c[..o] + name[..i] + c[o + i..]
    {
      buf[o + i] := name[i];
      CopyStep(c, buf[..], o, name, i);
    }
    assert name[..|name|] == name;
  }

  method WriteEntry(buf: array<Byte>, o: nat, d: Dirent)
    requires o + 8 + |d.name| <= buf.Length && Fits(d)
    modifies buf
    ensures buf[..] == PutEntry(old(buf[..]), o, d)
  {
    WriteInode(buf, o, d.ino);
    buf[o + 6] := |d.name|;
    buf[o + 7] := d.kind;
    assert buf[..] == PutInode(old(buf[..]), o, d.ino)[o + 6 := |d.name|][o + 7 := d.kind];
    hide PutInode;
    CopyName(buf, o + 8, d.name);
  }

  lemma CopyStep(c: Bytes, b: Bytes, o: nat, name: Bytes, i: nat)
    requires i < |name| && o + |name| <= |c| == |b|
    requires b == (c[..o] + name[..i] + c[o + i..])[o + i := name[i]]
    ensures b == c[..o] + name[..i + 1] + c[o + i + 1..]
  {
    var r := c[..o] + name[..i + 1] + c[o + i + 1..];
    forall k | 0 <= k < |c| ensures b[k] == r[k] {
    }
  }

  /** What a scan has seen and what is left: whole records on both sides of `off`. */
  ghost predicate Cut(b: Bytes, off: nat) {
    off <= |b| && Tiles(b, 0, off) && Tiles(b, off, |b|)
  }

  lemma CutStart(b: Bytes)
    requires Tiles(b, 0, |b|)
    ensures Cut(b, 0)
  {
  }

  /** The record at the cut, and the cut after it. */
  lemma CutNext(b: Bytes, off: nat)
    requires Cut(b, off) && off < |b|
    ensures RecordOk(b, off, |b|) && Cut(b, off + RecLen(b, off))
    ensures Live(b, 0, off + RecLen(b, off)) == Live(b, 0, off) + One(b, off, |b|)
    ensures Live(b, off, |b|) == One(b, off, |b|) + Live(b, off + RecLen(b, off), |b|)
  {
    Single(b, off, |b|);
    Widen(b, 0, off, off + RecLen(b, off));
  }

  lemma CutWhole(b: Bytes, off: nat)
    requires Cut(b, off)
    ensures Tiles(b, 0, |b|) && Live(b, 0, |b|) == Live(b, 0, off) + Live(b, off, |b|)
  {
    Widen(b, 0, off, |b|);
  }

  /** The record at `off` leaves room for `need` more bytes. */
  predicate HasRoom(b: Bytes, off: nat, need: nat)
    requires off + 8 <= |b|
  {
    RecLen(b, off) - (if InodeAt(b, off) != 0 then Size(NameLen(b, off)) else 0) >= need
  }

  /** No record between `o` and the end has room for `need` bytes. */
  predicate Packed(b: Bytes, o: nat, e: nat, need: nat)
    requires Tiles(b, o, e)
    decreases e - o
  {
    o == e || (!HasRoom(b, o, need) && Packed(b, o + RecLen(b, o), e, need))
  }

  /** The stretch `[o, n)` between two cuts is rewritten. */
  lemma Patch(b: Bytes, b': Bytes, o: nat, n: nat)
    requires Cut(b, o) && Cut(b, n) && Tiles(b, o, n) && Tiles(b', o, n) && Agree(b, b', 0, o) && Agree(b, b', n, |b|)
    ensures Tiles(b', 0, |b'|) && Live(b', 0, |b'|) == Live(b, 0, o) + Live(b', o, n) + Live(b, n, |b|)
  {
    Rewrite(b, b', o, n, |b|);
  }

  /** A record with room anywhere in the block. */
  lemma {:induction false} RoomFound(b: Bytes, o: nat, off: nat, e: nat, need: nat)
    requires Tiles(b, o, off) && Tiles(b, off, e) && RecordOk(b, off, e) && off < e && HasRoom(b, off, need)
    ensures Tiles(b, o, e) && !Packed(b, o, e, need)
    decreases off - o
  {
    TilesOrder(b, o, off);
    if o < off {
      RoomFound(b, o + RecLen(b, o), off, e, need);
    }
  }

  /** Where a long name does not fit, none longer does. */
  lemma {:induction false} PackedMore(b: Bytes, o: nat, e: nat, need: nat, more: nat)
    requires Tiles(b, o, e) && Packed(b, o, e, need) && need <= more
    ensures Packed(b, o, e, more)
    decreases e - o
  {
    if o != e {
      PackedMore(b, o + RecLen(b, o), e, need, more);
    }
  }

  /** The record that takes over the space of the one at `off`, or that one itself when it is the first. */
  lemma RoomLeft(b: Bytes, b': Bytes, prev: nat, off: nat, n: nat)
    requires Cut(b, prev) && RecordOk(b, prev, |b|) && RecordOk(b, off, |b|) && InodeAt(b, off) != 0 && n == off + RecLen(b, off)
    requires Cut(b, n) && Agree(b, b', 0, prev) && Agree(b, b', n, |b|) && Tiles(b', prev, n)
    requires off == prev ==> InodeAt(b', prev) == 0 && RecLen(b', prev) == RecLen(b, off)
    requires off != prev ==> off == prev + RecLen(b, prev) && RecLen(b', prev) == RecLen(b, prev) + RecLen(b, off)
    requires off != prev ==> InodeAt(b', prev) == InodeAt(b, prev) && NameLen(b', prev) == NameLen(b, prev)
    ensures Tiles(b', 0, |b'|) && !Packed(b', 0, |b'|, Size(NameLen(b, off)))
  {
    hide Live, Size;
    LiveAgrees(b, b', 0, prev);
    LiveAgrees(b, b', n, |b|);
    Widen(b', prev, n, |b|);
    RoomFound(b', 0, prev, |b'|, Size(NameLen(b, off)));
  }

  /** The scan of `ext2_add_dirent` over one block: the first record with room is split or taken over. */
  method AddToBlock(buf: array<Byte>, d: Dirent) returns (ok: bool, ghost x: seq<Dirent>, ghost y: seq<Dirent>)
    requires Tiles(buf[..], 0, buf.Length) && buf.Length < 0x1_0000 && Fits(d)
    modifies buf
    ensures Tiles(buf[..], 0, buf.Length)
    ensures ok ==> old(Live(buf[..], 0, buf.Length)) == x + y && Live(buf[..], 0, buf.Length) == x + [d] + y
    ensures !ok ==> buf[..] == old(buf[..]) && Packed(buf[..], 0, buf.Length, Size(|d.name|))
  {
    hide Tiles, Live, Size, Cut;
    ghost var b := buf[..];
    var need := Size(|d.name|);
    var off := 0;
    CutStart(b);
    while off < buf.Length
      invariant off <= buf.Length && buf[..] == b && Cut(b, off)
      invariant Tiles(b, off, |b|) && (Packed(b, off, |b|, need) ==> Packed(b, 0, |b|, need))
    {
      CutNext(b, off);
      var rec := RecLen(buf[..], off);
      var used := if InodeAt(buf[..], off) != 0 then Size(NameLen(buf[..], off)) else 0;
      if rec - used >= need {
        CutWhole(b, off);
        x, y := AddAt(buf, off, d);
        return true, x, y;
      }
      TilesNext(b, off, |b|);
      off := off + rec;
    }
    return false, [], [];
  }

  lemma TilesNext(b: Bytes, off: nat, e: nat)
    requires Tiles(b, off, e) && off < e
    ensures RecordOk(b, off, e) && Tiles(b, off + RecLen(b, off), e)
  {
  }

  method AddAt(buf: array<Byte>, off: nat, d: Dirent) returns (ghost x: seq<Dirent>, ghost y: seq<Dirent>)
    requires buf.Length < 0x1_0000 && Fits(d) && off < buf.Length && Cut(buf[..], off) && RecordOk(buf[..], off, buf.Length)
    requires HasRoom(buf[..], off, Size(|d.name|))
    modifies buf
    ensures Tiles(buf[..], 0, buf.Length) && old(Tiles(buf[..], 0, buf.Length))
    ensures old(Live(buf[..], 0, buf.Length)) == x + y && Live(buf[..], 0, buf.Length) == x + [d] + y
  {
    hide Tiles, Live, Size, Cut, PutEntry, PutRec, EntryAt;
    ghost var b := buf[..];
    ghost var n := off + RecLen(b, off);
    CutNext(b, off);
    Single(b, off, |b|);
    CutWhole(b, off);
    CutFront(b, n);
    CutFront(b, off);
    ghost var front, rest := Live(b, 0, off), Live(b, n, |b|);
    if InodeAt(buf[..], off) != 0 {
      var rec, used := RecLen(buf[..], off), Size(NameLen(buf[..], off));
      SplitRecord(b, off, used, n, |b|, d);
      WriteEntry(buf, off + used, d);
      WriteRec(buf, off + used, rec - used);
      WriteRec(buf, off, used);
      Patch(b, buf[..], off, n);
      x, y := front + One(b, off, |b|), rest;
      Assoc(front, One(b, off, |b|), [d]);
      Assoc(front, One(b, off, |b|), rest);
    } else {
      ReuseRecord(b, off, |b|, d);
      WriteEntry(buf, off, d);
      Patch(b, buf[..], off, n);
      x, y := front, rest;
      assert One(b, off, |b|) + rest == rest;
    }
  }

  /** The scan of `ext2_remove_dirent` over one block. */
  method RemoveFromBlock(buf: array<Byte>, name: Bytes) returns (ok: bool, ghost x: seq<Dirent>, ghost d: Dirent, ghost y: seq<Dirent>)
    requires Tiles(buf[..], 0, buf.Length) && buf.Length < 0x1_0000
    modifies buf
    ensures Tiles(buf[..], 0, buf.Length)
    ensures ok ==> d.name == name && Absent(x, name)
    ensures ok ==> old(Live(buf[..], 0, buf.Length)) == x + [d] + y && Live(buf[..], 0, buf.Length) == x + y
    ensures ok ==> !Packed(buf[..], 0, buf.Length, Size(|name|))
    ensures !ok ==> buf[..] == old(buf[..]) && Absent(Live(buf[..], 0, buf.Length), name)
  {
    hide Tiles, Live, Size, Cut, Packed;
    ghost var b := buf[..];
    var prev: nat, off: nat := 0, 0;
    CutStart(b);
    NothingYet(b);
    while off < buf.Length
      invariant off <= buf.Length && buf[..] == b && Cut(b, off) && Tiles(b, 0, off) && Absent(Live(b, 0, off), name)
      invariant off > 0 ==> prev < off && Cut(b, prev) && RecordOk(b, prev, |b|) && prev + RecLen(b, prev) == off
      invariant off == 0 ==> prev == 0
    {
      CutNext(b, off);
      if InodeAt(buf[..], off) != 0 && NameAt(buf[..], off, buf.Length) == name {
        d := EntryAt(b, off);
        x, y := RemoveAt(buf, prev, off);
        return true, x, d, y;
      }
      prev, off := off, off + RecLen(buf[..], off);
      CutFront(b, off);
    }
    AllSeen(b);
    return false, [], Dirent([], 0, 0), [];
  }

  function NameAt(b: Bytes, o: nat, e: nat): Bytes
    requires RecordOk(b, o, e) && InodeAt(b, o) != 0
  {
    b[o + 8..o + 8 + NameLen(b, o)]
  }

  lemma NothingYet(b: Bytes)
    ensures Tiles(b, 0, 0) && Live(b, 0, 0) == []
  {
  }

  lemma CutFront(b: Bytes, off: nat)
    requires Cut(b, off)
    ensures Tiles(b, 0, off) && Tiles(b, off, |b|)
  {
  }

  lemma AllSeen(b: Bytes)
    requires Cut(b, |b|)
    ensures Tiles(b, 0, |b|)
  {
  }

  lemma NameSize(b: Bytes, o: nat)
    requires o + 8 <= |b| && o + 8 + NameLen(b, o) <= |b|
    ensures |EntryAt(b, o).name| == NameLen(b, o)
  {
  }

  /** Both ways of removing the record at `off` leave its neighbours and make room for its name. */
  ghost predicate Gone(b: Bytes, b': Bytes, off: nat)
    requires off < |b| && Cut(b, off) && RecordOk(b, off, |b|)
  {
    CutNext(b, off);
    var n := off + RecLen(b, off);
    && Tiles(b', 0, |b'|) && Live(b', 0, |b'|) == Live(b, 0, off) + Live(b, n, |b|)
    && !Packed(b', 0, |b'|, Size(NameLen(b, off)))
  }

  lemma FirstGone(b: Bytes)
    requires |b| < 0x1_0000 && 0 < |b| && Cut(b, 0) && RecordOk(b, 0, |b|) && InodeAt(b, 0) != 0
    ensures Gone(b, PutInode(b, 0, 0), 0)
  {
    hide Tiles, Live, Size, Cut, PutInode, Packed;
    var b', n := PutInode(b, 0, 0), RecLen(b, 0);
    CutNext(b, 0);
    Single(b, 0, |b|);
    FreeFirst(b, |b|);
    PutInodeFields(b, 0, 0);
    CutFront(b, n);
    NothingYet(b);
    Patch(b, b', 0, n);
    RoomLeft(b, b', 0, 0, n);
  }

  lemma LaterGone(b: Bytes, prev: nat, off: nat)
    requires |b| < 0x1_0000 && off < |b| && Cut(b, off) && RecordOk(b, off, |b|) && InodeAt(b, off) != 0
    requires prev < off && Cut(b, prev) && RecordOk(b, prev, |b|) && prev + RecLen(b, prev) == off
    ensures Gone(b, PutRec(b, prev, RecLen(b, prev) + RecLen(b, off)), off)
  {
    hide Tiles, Live, Size, Cut, PutRec, Packed;
    var b', n := PutRec(b, prev, RecLen(b, prev) + RecLen(b, off)), off + RecLen(b, off);
    CutNext(b, off);
    CutNext(b, prev);
    CutFront(b, n);
    CutFront(b, off);
    CutFront(b, prev);
    Single(b, prev, |b|);
    Single(b, off, |b|);
    MergeRecord(b, prev, off, |b|);
    PutRecFields(b, prev, RecLen(b, prev) + RecLen(b, off));
    Widen(b, prev, off, n);
    Widen(b, 0, prev, off);
    Patch(b, b', prev, n);
    RoomLeft(b, b', prev, off, n);
  }

  method RemoveAt(buf: array<Byte>, prev: nat, off: nat) returns (ghost x: seq<Dirent>, ghost y: seq<Dirent>)
    requires buf.Length < 0x1_0000 && off < buf.Length && Cut(buf[..], off) && RecordOk(buf[..], off, buf.Length) && InodeAt(buf[..], off) != 0
    requires if off == 0 then prev == 0
             else prev < off && Cut(buf[..], prev) && RecordOk(buf[..], prev, buf.Length) && prev + RecLen(buf[..], prev) == off
    modifies buf
    ensures Tiles(buf[..], 0, buf.Length) && old(Tiles(buf[..], 0, buf.Length)) && old(Tiles(buf[..], 0, off)) && x == old(Live(buf[..], 0, off))
    ensures old(Live(buf[..], 0, buf.Length)) == x + [old(EntryAt(buf[..], off))] + y && Live(buf[..], 0, buf.Length) == x + y
    ensures !Packed(buf[..], 0, buf.Length, Size(|old(EntryAt(buf[..], off)).name|))
  {
    hide *;
    ghost var b := buf[..];
    x, y := Around(b, off);
    Erase(buf, prev, off);
    WhatIsGone(b, buf[..], off, x, y);
  }

  method Erase(buf: array<Byte>, prev: nat, off: nat)
    requires buf.Length < 0x1_0000 && off < buf.Length && Cut(buf[..], off) && RecordOk(buf[..], off, buf.Length) && InodeAt(buf[..], off) != 0
    requires if off == 0 then prev == 0
             else prev < off && Cut(buf[..], prev) && RecordOk(buf[..], prev, buf.Length) && prev + RecLen(buf[..], prev) == off
    modifies buf
    ensures Gone(old(buf[..]), buf[..], off)
  {
    hide Tiles, Live, Size, Cut, PutRec, PutInode, EntryAt, Packed, Gone, InodeAt, NameLen;
    if prev == 0 && off == 0 {
      FirstGone(buf[..]);
      WriteInode(buf, 0, 0);
    } else {
      LaterGone(buf[..], prev, off);
      WriteRec(buf, prev, RecLen(buf[..], prev) + RecLen(buf[..], off));
    }
  }

  lemma WhatIsGone(b: Bytes, b': Bytes, off: nat, x: seq<Dirent>, y: seq<Dirent>)
    requires off < |b| && Cut(b, off) && RecordOk(b, off, |b|) && InodeAt(b, off) != 0 && Gone(b, b', off)
    requires Tiles(b, 0, off) && x == Live(b, 0, off)
    requires Cut(b, off + RecLen(b, off)) && y == Live(b, off + RecLen(b, off), |b|)
    ensures Tiles(b', 0, |b'|) && Live(b', 0, |b'|) == x + y && !Packed(b', 0, |b'|, Size(|EntryAt(b, off).name|))
  {
    NameSize(b, off);
  }

  /** The entries before and after the record at `off`. */
  lemma Around(b: Bytes, off: nat) returns (x: seq<Dirent>, y: seq<Dirent>)
    requires off < |b| && Cut(b, off) && RecordOk(b, off, |b|) && InodeAt(b, off) != 0
    ensures Tiles(b, 0, |b|) && Tiles(b, 0, off) && x == Live(b, 0, off)
    ensures Cut(b, off + RecLen(b, off)) && y == Live(b, off + RecLen(b, off), |b|)
    ensures Live(b, 0, |b|) == x + [EntryAt(b, off)] + y
  {
    hide Tiles, Live, Size, Cut, EntryAt;
    var n := off + RecLen(b, off);
    CutFront(b, off);
    CutNext(b, off);
    CutWhole(b, off);
    Single(b, off, |b|);
    CutFront(b, n);
    x, y := Live(b, 0, off), Live(b, n, |b|);
    Assoc(x, [EntryAt(b, off)], y);
  }

  lemma {:induction false} FindHit(x: seq<Dirent>, y: seq<Dirent>, name: Bytes)
    requires !Absent(x, name)
    ensures Find(x + y, name) == Find(x, name)
  {
    assert (x + y)[0] == x[0];
    if x[0].name != name {
      assert (x + y)[1..] == x[1..] + y;
      assert !Absent(x[1..], name) by {
        var i :| 0 <= i < |x| && x[i].name == name;
        assert x[1..][i - 1].name == name;
      }
      FindHit(x[1..], y, name);
    }
  }

  /** The scan of `ext2_lookup` over one block. */
  method FindInBlock(buf: array<Byte>, name: Bytes) returns (found: bool, ino: nat)
    requires Tiles(buf[..], 0, buf.Length)
    ensures found <==> !Absent(Live(buf[..], 0, buf.Length), name)
    ensures found ==> ino == Find(Live(buf[..], 0, buf.Length), name) && ino != 0
  {
    hide Tiles, Live, Cut;
    ghost var b := buf[..];
    var off := 0;
    CutStart(b);
    NothingYet(b);
    while off < buf.Length
      invariant off <= buf.Length && buf[..] == b && Cut(b, off) && Tiles(b, 0, off) && Absent(Live(b, 0, off), name)
    {
      CutNext(b, off);
      if InodeAt(buf[..], off) != 0 && NameAt(buf[..], off, buf.Length) == name {
        CutWhole(b, off);
        CutFront(b, off);
        CutFront(b, off + RecLen(b, off));
        ghost var front, rest := Live(b, 0, off), Live(b, off, |b|);
        FindJoin(front, rest, name);
        assert rest[0] == EntryAt(b, off) && (front + rest)[|front|] == rest[0];
        return true, InodeAt(buf[..], off);
      }
      off := off + RecLen(buf[..], off);
      CutFront(b, off);
    }
    found, ino := false, 0;
  }

  // ----- the directory -----

  /** A file block of the directory: a hole, or the bytes of its block. */
  datatype Block = Hole | Data(bytes: Bytes)

  predicate BlockOk(k: Block, bs: nat) {
    k.Data? ==> |k.bytes| == bs && Tiles(k.bytes, 0, bs)
  }

  predicate BlocksOk(blocks: seq<Block>, bs: nat) {
    forall i :: 0 <= i < |blocks| ==> BlockOk(blocks[i], bs)
  }

  function EntriesIn(k: Block, bs: nat): seq<Dirent>
    requires BlockOk(k, bs)
  {
    if k.Hole? then [] else Live(k.bytes, 0, bs)
  }

  function Entries(blocks: seq<Block>, bs: nat): seq<Dirent>
    requires BlocksOk(blocks, bs)
  {
    if blocks == [] then [] else EntriesIn(blocks[0], bs) + Entries(blocks[1..], bs)
  }

  lemma {:induction false} EntriesJoin(x: seq<Block>, y: seq<Block>, bs: nat)
    requires BlocksOk(x, bs) && BlocksOk(y, bs)
    ensures BlocksOk(x + y, bs) && Entries(x + y, bs) == Entries(x, bs) + Entries(y, bs)
  {
    if x == [] {
      assert x + y == y;
    } else {
      assert (x + y)[1..] == x[1..] + y;
      EntriesJoin(x[1..], y, bs);
      hide EntriesIn, BlockOk;
      Assoc(EntriesIn(x[0], bs), Entries(x[1..], bs), Entries(y, bs));
    }
  }

  /** The entries around one block. */
  lemma EntriesAround(blocks: seq<Block>, i: nat, k: Block, bs: nat)
    requires BlocksOk(blocks, bs) && i < |blocks| && BlockOk(k, bs)
    ensures BlocksOk(blocks[i := k], bs)
    ensures Entries(blocks[i := k], bs) == Entries(blocks[..i], bs) + EntriesIn(k, bs) + Entries(blocks[i + 1..], bs)
  {
    var front, rest := blocks[..i], blocks[i + 1..];
    assert blocks[i := k] == front + [k] + rest;
    EntriesJoin(front, [k], bs);
    EntriesJoin(front + [k], rest, bs);
    assert [k][1..] == [] && EntriesIn(k, bs) + [] == EntriesIn(k, bs);
    assert Entries([k], bs) == EntriesIn(k, bs) + Entries([k][1..], bs);
  }

  /** An insertion or removal inside block `i` is one in the whole directory. */
  lemma EntriesChanged(blocks: seq<Block>, i: nat, k: Block, bs: nat, x: seq<Dirent>, m: seq<Dirent>, m': seq<Dirent>, y: seq<Dirent>)
    requires BlocksOk(blocks, bs) && i < |blocks| && BlockOk(k, bs)
    requires EntriesIn(blocks[i], bs) == x + m + y && EntriesIn(k, bs) == x + m' + y
    ensures BlocksOk(blocks[i := k], bs)
    ensures var front, rest := Entries(blocks[..i], bs) + x, y + Entries(blocks[i + 1..], bs);
            Entries(blocks, bs) == front + m + rest && Entries(blocks[i := k], bs) == front + m' + rest
  {
    var a, z := Entries(blocks[..i], bs), Entries(blocks[i + 1..], bs);
    assert blocks[i := blocks[i]] == blocks;
    EntriesAround(blocks, i, blocks[i], bs);
    EntriesAround(blocks, i, k, bs);
    Regroup(a, x, m, y, z);
    Regroup(a, x, m', y, z);
  }

  lemma Regroup(a: seq<Dirent>, x: seq<Dirent>, m: seq<Dirent>, y: seq<Dirent>, z: seq<Dirent>)
    ensures a + (x + m + y) + z == a + x + m + (y + z)
  {
  }

  lemma AbsentJoin(x: seq<Dirent>, y: seq<Dirent>, name: Bytes)
    requires Absent(x, name) && Absent(y, name)
    ensures Absent(x + y, name)
  {
  }

  class Directory {
    /** The block size, 2048 or 4096 in practice; a longest name fits. */
    const bs: nat
    var blocks: seq<Block>

    constructor (size: nat)
      ensures bs == size && blocks == []
    {
      bs := size;
      blocks := [];
    }

    ghost predicate Valid()
      reads this
    {
      Size(255) <= bs < 0x1_0000 && BlocksOk(blocks, bs)
    }

    /** Reads a block into a fresh buffer. */
    method ReadBlock(i: nat) returns (buf: array<Byte>)
      requires Valid() && i < |blocks| && blocks[i].Data?
      ensures fresh(buf) && buf[..] == blocks[i].bytes
    {
      var bytes := blocks[i].bytes;
      buf := new Byte[|bytes|](j requires 0 <= j < |bytes| => bytes[j]);
    }

    /** `ext2_lookup`, up to the inode number found. */
    method Lookup(name: Bytes) returns (found: bool, ino: nat)
      requires Valid()
      ensures found <==> !Absent(Entries(blocks, bs), name)
      ensures found ==> ino == Find(Entries(blocks, bs), name) && ino != 0
    {
      hide Tiles, Live, Size, Entries;
      NoBlocks(bs);
      for i := 0 to |blocks|
        invariant BlocksOk(blocks[..i], bs) && Absent(Entries(blocks[..i], bs), name)
      {
        EntriesSplit(blocks, i, bs);
        ghost var front, one, rest := Entries(blocks[..i], bs), EntriesIn(blocks[i], bs), Entries(blocks[i + 1..], bs);
        if blocks[i].Hole? {
          assert front + one == front;
          continue;
        }
        var buf := ReadBlock(i);
        found, ino := FindInBlock(buf, name);
        if found {
          FindJoin(front, one + rest, name);
          FindHit(one, rest, name);
          Assoc(front, one, rest);
          HitStays(front, one, rest, name);
          return;
        }
        AbsentJoin(front, one, name);
      }
      assert blocks[..|blocks|] == blocks;
      found, ino := false, 0;
    }

    /** `ext2_add_dirent`. Whether a block can be had for a directory that is full is an input. */
    method Add(d: Dirent, canGrow: bool) returns (ok: bool, ghost x: seq<Dirent>, ghost y: seq<Dirent>)
      requires Valid() && Fits(d)
      modifies this
      ensures Valid()
      ensures ok ==> old(Entries(blocks, bs)) == x + y && Entries(blocks, bs) == x + [d] + y
      ensures !ok ==> !canGrow && blocks == old(blocks)
      ensures |blocks| == |old(blocks)| || (|blocks| == |old(blocks)| + 1 && blocks[..|old(blocks)|] == old(blocks))
      ensures !ok || |blocks| != |old(blocks)| ==> forall i :: 0 <= i < |old(blocks)| && old(blocks)[i].Data? ==>
        Packed(old(blocks)[i].bytes, 0, bs, Size(|d.name|))
    {
      hide Tiles, Live, Size, Entries, Packed;
      for i := 0 to |blocks|
        invariant Valid() && blocks == old(blocks)
        invariant forall j :: 0 <= j < i && blocks[j].Data? ==> Packed(blocks[j].bytes, 0, bs, Size(|d.name|))
      {
        if blocks[i].Hole? {
          continue;
        }
        var buf := ReadBlock(i);
        var put;
        put, x, y := AddToBlock(buf, d);
        if put {
          Inserted(blocks, i, Data(buf[..]), bs, x, d, y);
          x, y := Entries(blocks[..i], bs) + x, y + Entries(blocks[i + 1..], bs);
          blocks := blocks[i := Data(buf[..])];
          return true, x, y;
        }
      }
      if !canGrow {
        return false, [], [];
      }
      var buf := new Byte[bs](_ => 0);
      FirstEntry(buf, d);
      x, y := Entries(blocks, bs), [];
      Appended(blocks, Data(buf[..]), bs, d);
      assert x + [] == x && x + [d] + [] == x + [d];
      blocks := blocks + [Data(buf[..])];
      return true, x, y;
    }

    /** `ext2_remove_dirent`. */
    method Remove(name: Bytes) returns (ok: bool, ghost x: seq<Dirent>, ghost d: Dirent, ghost y: seq<Dirent>)
      requires Valid()
      modifies this
      ensures Valid() && |blocks| == |old(blocks)|
      ensures ok ==> d.name == name && Absent(x, name)
      ensures ok ==> old(Entries(blocks, bs)) == x + [d] + y && Entries(blocks, bs) == x + y
      ensures ok ==> exists i :: 0 <= i < |blocks| && blocks[i].Data? && !Packed(blocks[i].bytes, 0, bs, Size(|name|))
      ensures !ok ==> blocks == old(blocks) && Absent(Entries(blocks, bs), name)
    {
      hide Tiles, Live, Size, Entries, Packed;
      NoBlocks(bs);
      for i := 0 to |blocks|
        invariant Valid() && blocks == old(blocks) && BlocksOk(blocks[..i], bs) && Absent(Entries(blocks[..i], bs), name)
      {
        EntriesSplit(blocks, i, bs);
        ghost var front, one := Entries(blocks[..i], bs), EntriesIn(blocks[i], bs);
        if blocks[i].Hole? {
          assert front + one == front;
          continue;
        }
        var buf := ReadBlock(i);
        ok, x, d, y := RemoveFromBlock(buf, name);
        if ok {
          Removed(blocks, i, Data(buf[..]), bs, x, d, y);
          AbsentJoin(front, x, name);
          x, y := front + x, y + Entries(blocks[i + 1..], bs);
          blocks := blocks[i := Data(buf[..])];
          assert blocks[i].Data? && !Packed(blocks[i].bytes, 0, bs, Size(|name|));
          return;
        }
        AbsentJoin(front, one, name);
      }
      assert blocks[..|blocks|] == blocks;
      return false, [], Dirent([], 0, 0), [];
    }
  }

  /** The space of a removed name is used again: a name no longer than it needs no new block. */
  method RemoveThenAdd(dir: Directory, name: Bytes, d: Dirent) returns (removed: bool, added: bool)
    requires dir.Valid() && Fits(d) && |d.name| <= |name|
    modifies dir
    ensures dir.Valid() && (removed <==> !Absent(old(Entries(dir.blocks, dir.bs)), name))
    ensures removed ==> added && |dir.blocks| == |old(dir.blocks)|
  {
    hide Tiles, Live, Entries, Packed;
    ghost var before := Entries(dir.blocks, dir.bs);
    ghost var x, gone, y;
    removed, x, gone, y := dir.Remove(name);
    assert removed ==> before[|x|] == gone;
    added := false;
    if removed {
      ghost var blocks := dir.blocks;
      added, x, y := dir.Add(d, false);
      ghost var i :| 0 <= i < |blocks| && blocks[i].Data? && !Packed(blocks[i].bytes, 0, dir.bs, Size(|name|));
      if Packed(blocks[i].bytes, 0, dir.bs, Size(|d.name|)) {
        PackedMore(blocks[i].bytes, 0, dir.bs, Size(|d.name|), Size(|name|));
      }
    }
  }

  lemma NoBlocks(bs: nat)
    ensures BlocksOk([], bs) && Entries([], bs) == []
  {
  }

  lemma EntriesSplit(blocks: seq<Block>, i: nat, bs: nat)
    requires BlocksOk(blocks, bs) && i < |blocks|
    ensures BlocksOk(blocks[..i + 1], bs) && Entries(blocks[..i + 1], bs) == Entries(blocks[..i], bs) + EntriesIn(blocks[i], bs)
    ensures Entries(blocks, bs) == Entries(blocks[..i], bs) + EntriesIn(blocks[i], bs) + Entries(blocks[i + 1..], bs)
  {
    EntriesAround(blocks, i, blocks[i], bs);
    assert blocks[i := blocks[i]] == blocks;
    var upTo := blocks[..i + 1];
    assert upTo[i := upTo[i]] == upTo && upTo[..i] == blocks[..i] && upTo[i + 1..] == [];
    EntriesAround(upTo, i, upTo[i], bs);
  }

  lemma HitStays(x: seq<Dirent>, y: seq<Dirent>, z: seq<Dirent>, name: Bytes)
    requires !Absent(y, name)
    ensures !Absent(x + y + z, name)
  {
    var i :| 0 <= i < |y| && y[i].name == name;
    assert (x + y + z)[|x| + i] == y[i];
  }

  lemma NoMiddle(x: seq<Dirent>, y: seq<Dirent>)
    ensures x + [] + y == x + y
  {
  }

  lemma Inserted(blocks: seq<Block>, i: nat, k: Block, bs: nat, x: seq<Dirent>, d: Dirent, y: seq<Dirent>)
    requires BlocksOk(blocks, bs) && i < |blocks| && BlockOk(k, bs) && EntriesIn(blocks[i], bs) == x + y && EntriesIn(k, bs) == x + [d] + y
    ensures BlocksOk(blocks[i := k], bs)
    ensures var front, rest := Entries(blocks[..i], bs) + x, y + Entries(blocks[i + 1..], bs);
            Entries(blocks, bs) == front + rest && Entries(blocks[i := k], bs) == front + [d] + rest
  {
    hide Entries, EntriesIn, BlockOk;
    NoMiddle(x, y);
    EntriesChanged(blocks, i, k, bs, x, [], [d], y);
    NoMiddle(Entries(blocks[..i], bs) + x, y + Entries(blocks[i + 1..], bs));
  }

  lemma Removed(blocks: seq<Block>, i: nat, k: Block, bs: nat, x: seq<Dirent>, d: Dirent, y: seq<Dirent>)
    requires BlocksOk(blocks, bs) && i < |blocks| && BlockOk(k, bs) && EntriesIn(blocks[i], bs) == x + [d] + y && EntriesIn(k, bs) == x + y
    ensures BlocksOk(blocks[i := k], bs)
    ensures var front, rest := Entries(blocks[..i], bs) + x, y + Entries(blocks[i + 1..], bs);
            Entries(blocks, bs) == front + [d] + rest && Entries(blocks[i := k], bs) == front + rest
  {
    hide Entries, EntriesIn, BlockOk;
    NoMiddle(x, y);
    EntriesChanged(blocks, i, k, bs, x, [d], [], y);
    NoMiddle(Entries(blocks[..i], bs) + x, y + Entries(blocks[i + 1..], bs));
  }

  lemma Appended(blocks: seq<Block>, k: Block, bs: nat, d: Dirent)
    requires BlocksOk(blocks, bs) && BlockOk(k, bs) && EntriesIn(k, bs) == [d]
    ensures BlocksOk(blocks + [k], bs) && Entries(blocks + [k], bs) == Entries(blocks, bs) + [d]
  {
    EntriesJoin(blocks, [k], bs);
    assert [k][1..] == [];
    assert Entries([k], bs) == EntriesIn(k, bs) + Entries([k][1..], bs);
  }

  /** The single record of a new block. */
  method FirstEntry(buf: array<Byte>, d: Dirent)
    requires Size(255) <= buf.Length < 0x1_0000 && Fits(d)
    modifies buf
    ensures Tiles(buf[..], 0, buf.Length) && Live(buf[..], 0, buf.Length) == [d]
  {
    assert Size(|d.name|) <= buf.Length;
    WriteEntry(buf, 0, d);
    ghost var b := buf[..];
    PutEntryFields(old(buf[..]), 0, d);
    WriteRec(buf, 0, buf.Length);
    PutRecFields(b, 0, buf.Length);
    hide PutEntry, PutRec, Tiles, Live, Size;
    SameEntry(b, buf[..], 0);
    SecondPart(buf[..], buf[..], 0, buf.Length, d);
  }
}
