/** A directory block of ext2 (kernel/vfs/ext2.c): variable-length records laid out in bytes, each naming its own length. */
module Ext2DirBlock {

  type Byte = n: nat | n < 0x100

  type Bytes = seq<Byte>

  datatype Dirent = Dirent(name: Bytes, ino: nat, kind: Byte)

  /** An entry that fits the fields of a record: a 32-bit inode number other than 0 and a name of at most 255 bytes. */
  predicate Fits(d: Dirent) {
    0 < d.ino < 0x1_0000_0000 && |d.name| < 0x100
  }

  // ----- the fields of `struct ext2_dir_entry` at offset `o` -----

  function InodeAt(b: Bytes, o: nat): nat
    requires o + 8 <= |b|
  {
    b[o] as nat + 0x100 * (b[o + 1] as nat) + 0x1_0000 * (b[o + 2] as nat) + 0x100_0000 * (b[o + 3] as nat)
  }

  function RecLen(b: Bytes, o: nat): nat
    requires o + 8 <= |b|
  {
    b[o + 4] as nat + 0x100 * (b[o + 5] as nat)
  }

  function NameLen(b: Bytes, o: nat): nat
    requires o + 8 <= |b|
  {
    b[o + 6]
  }

  /** The space a name takes: the header and the name, rounded up to four (`ext2_dirent_size`). */
  function Size(n: nat): (r: nat)
    ensures 8 + n <= r < 12 + n && r % 4 == 0
  {
    (8 + n + 3) / 4 * 4
  }

  /** The record at `o` lies before `e`, and a live one has room for its name. */
  predicate RecordOk(b: Bytes, o: nat, e: nat) {
    && o + 8 <= e <= |b|
    && RecLen(b, o) >= 8 && o + RecLen(b, o) <= e
    && (InodeAt(b, o) != 0 ==> Size(NameLen(b, o)) <= RecLen(b, o))
  }

  /** The records from `o` on end exactly at `e`. */
  predicate Tiles(b: Bytes, o: nat, e: nat)
    decreases e - o
  {
    o == e <= |b| || (RecordOk(b, o, e) && Tiles(b, o + RecLen(b, o), e))
  }

  function EntryAt(b: Bytes, o: nat): Dirent
    requires o + 8 <= |b| && o + 8 + NameLen(b, o) <= |b|
  {
    Dirent(b[o + 8..o + 8 + NameLen(b, o)], InodeAt(b, o), b[o + 7])
  }

  /** The record at `o` as the list of its entry, empty when the record is free. */
  function One(b: Bytes, o: nat, e: nat): seq<Dirent>
    requires RecordOk(b, o, e)
  {
    if InodeAt(b, o) == 0 then [] else [EntryAt(b, o)]
  }

  /** The entries from `o` to `e`, in order. */
  function Live(b: Bytes, o: nat, e: nat): seq<Dirent>
    requires Tiles(b, o, e)
    decreases e - o
  {
    if o == e then [] else One(b, o, e) + Live(b, o + RecLen(b, o), e)
  }

  // ----- the records on either side of a change -----

  predicate Agree(b: Bytes, b': Bytes, o: nat, e: nat) {
    |b'| == |b| && forall i :: o <= i < e && i < |b| ==> b'[i] == b[i]
  }

  lemma OneAgrees(b: Bytes, b': Bytes, o: nat, e: nat)
    requires RecordOk(b, o, e) && Agree(b, b', o, o + RecLen(b, o))
    ensures RecordOk(b', o, e) && RecLen(b', o) == RecLen(b, o) && One(b', o, e) == One(b, o, e)
  {
    assert InodeAt(b', o) == InodeAt(b, o) && NameLen(b', o) == NameLen(b, o);
    if InodeAt(b, o) != 0 {
      assert b'[o + 8..o + 8 + NameLen(b, o)] == b[o + 8..o + 8 + NameLen(b, o)];
    }
  }

  lemma {:induction false} LiveAgrees(b: Bytes, b': Bytes, o: nat, e: nat)
    requires Tiles(b, o, e) && Agree(b, b', o, e)
    ensures Tiles(b', o, e) && Live(b', o, e) == Live(b, o, e)
    decreases e - o
  {
    if o < e {
      OneAgrees(b, b', o, e);
      LiveAgrees(b, b', o + RecLen(b, o), e);
    }
  }

  lemma {:induction false} Widen(b: Bytes, o: nat, m: nat, e: nat)
    requires Tiles(b, o, m) && Tiles(b, m, e)
    ensures Tiles(b, o, e) && Live(b, o, e) == Live(b, o, m) + Live(b, m, e)
    decreases m - o
  {
    TilesOrder(b, m, e);
    if o < m {
      var n := o + RecLen(b, o);
      OneWider(b, o, m, e);
      hide RecordOk, RecLen, One;
      Widen(b, n, m, e);
      Assoc(One(b, o, m), Live(b, n, m), Live(b, m, e));
    }
  }

  lemma Assoc(x: seq<Dirent>, y: seq<Dirent>, z: seq<Dirent>)
    ensures x + y + z == x + (y + z)
  {
  }

  lemma OneWider(b: Bytes, o: nat, m: nat, e: nat)
    requires RecordOk(b, o, m) && m <= e <= |b|
    ensures RecordOk(b, o, e) && One(b, o, e) == One(b, o, m)
  {
  }

  lemma {:induction false} TilesOrder(b: Bytes, o: nat, e: nat)
    requires Tiles(b, o, e)
    ensures o <= e <= |b|
    decreases e - o
  {
    if o < e {
      TilesOrder(b, o + RecLen(b, o), e);
    }
  }

  /** One record alone, up to its own end. */
  lemma Single(b: Bytes, o: nat, e: nat)
    requires RecordOk(b, o, e)
    ensures Tiles(b, o, o + RecLen(b, o)) && Live(b, o, o + RecLen(b, o)) == One(b, o, e)
  {
    var n := o + RecLen(b, o);
    assert RecordOk(b, o, n) && One(b, o, n) == One(b, o, e);
    assert Tiles(b, n, n) && Live(b, n, n) == [];
    assert One(b, o, n) + [] == One(b, o, n);
  }

  /** A stretch `[o, n)` of a block is rewritten; what is before and after stays. */
  lemma Rewrite(b: Bytes, b': Bytes, o: nat, n: nat, e: nat)
    requires Tiles(b, 0, o) && Tiles(b, o, n) && Tiles(b, n, e) && Tiles(b', o, n)
    requires Agree(b, b', 0, o) && Agree(b, b', n, e)
    ensures Tiles(b, 0, e) && Live(b, 0, e) == Live(b, 0, o) + Live(b, o, n) + Live(b, n, e)
    ensures Tiles(b', 0, e) && Live(b', 0, e) == Live(b, 0, o) + Live(b', o, n) + Live(b, n, e)
  {
    LiveAgrees(b, b', 0, o);
    LiveAgrees(b, b', n, e);
    Widen(b, 0, o, n);
    Widen(b, 0, n, e);
    Widen(b', 0, o, n);
    Widen(b', 0, n, e);
  }

  // ----- writing fields -----

  function PutRec(b: Bytes, o: nat, rec: nat): (c: Bytes)
    requires o + 8 <= |b| && rec < 0x1_0000
    ensures |c| == |b|
  {
    b[o + 4 := rec % 0x100][o + 5 := rec / 0x100]
  }

  function PutInode(b: Bytes, o: nat, ino: nat): (c: Bytes)
    requires o + 8 <= |b| && ino < 0x1_0000_0000
    ensures |c| == |b|
  {
    b[o := ino % 0x100][o + 1 := ino / 0x100 % 0x100][o + 2 := ino / 0x1_0000 % 0x100][o + 3 := ino / 0x100_0000]
  }

  /** Everything but the record length. */
  function PutEntry(b: Bytes, o: nat, d: Dirent): (c: Bytes)
    requires o + 8 + |d.name| <= |b| && Fits(d)
    ensures |c| == |b|
  {
    var c := PutInode(b, o, d.ino)[o + 6 := |d.name|][o + 7 := d.kind];
    c[..o + 8] + d.name + c[o + 8 + |d.name|..]
  }

  lemma PutRecFields(b: Bytes, o: nat, rec: nat)
    requires o + 8 <= |b| && rec < 0x1_0000
    ensures var c := PutRec(b, o, rec);
            && |c| == |b| && RecLen(c, o) == rec && InodeAt(c, o) == InodeAt(b, o) && NameLen(c, o) == NameLen(b, o) && c[o + 7] == b[o + 7]
            && forall i :: 0 <= i < |b| && !(o + 4 <= i < o + 6) ==> c[i] == b[i]
  {
  }

  lemma PutInodeFields(b: Bytes, o: nat, ino: nat)
    requires o + 8 <= |b| && ino < 0x1_0000_0000
    ensures var c := PutInode(b, o, ino);
            && |c| == |b| && InodeAt(c, o) == ino && RecLen(c, o) == RecLen(b, o) && NameLen(c, o) == NameLen(b, o)
            && forall i :: 0 <= i < |b| && !(o <= i < o + 4) ==> c[i] == b[i]
  {
    assert ino / 0x100 / 0x100 == ino / 0x1_0000 && ino / 0x1_0000 / 0x100 == ino / 0x100_0000;
  }

  lemma PutEntryFields(b: Bytes, o: nat, d: Dirent)
    requires o + 8 + |d.name| <= |b| && Fits(d)
    ensures var c := PutEntry(b, o, d);
            && |c| == |b| && RecLen(c, o) == RecLen(b, o) && NameLen(c, o) == |d.name| && EntryAt(c, o) == d
            && forall i :: 0 <= i < |b| && !(o <= i < o + 8 + |d.name|) ==> c[i] == b[i]
  {
    PutInodeFields(b, o, d.ino);
    var p := PutInode(b, o, d.ino);
    var c := PutEntry(b, o, d);
    assert c[o] == p[o] && c[o + 1] == p[o + 1] && c[o + 2] == p[o + 2] && c[o + 3] == p[o + 3];
    assert InodeAt(c, o) == InodeAt(p, o);
    assert RecLen(c, o) == RecLen(b, o);
    assert c[o + 8..o + 8 + |d.name|] == d.name;
  }

  // ----- the four changes -----

  /** The bytes after the record at `o`, of which `used` are needed, is split for `d`. */
  function SplitBytes(b: Bytes, o: nat, used: nat, rec: nat, d: Dirent): (c: Bytes)
    requires 8 <= used <= rec < 0x1_0000 && o + rec <= |b| && used + 8 + |d.name| <= rec && Fits(d)
    ensures |c| == |b|
  {
    PutRec(PutRec(PutEntry(b, o + used, d), o + used, rec - used), o, used)
  }

  /** A live record with enough slack is split, and the new entry put in the second part. */
  lemma SplitRecord(b: Bytes, o: nat, used: nat, n: nat, e: nat, d: Dirent)
    requires RecordOk(b, o, e) && InodeAt(b, o) != 0 && Fits(d) && used == Size(NameLen(b, o)) && n == o + RecLen(b, o)
    requires used + Size(|d.name|) <= n - o
    ensures var b' := SplitBytes(b, o, used, n - o, d);
            && Agree(b, b', 0, o) && Agree(b, b', n, |b|) && Tiles(b', o, n) && Live(b', o, n) == One(b, o, e) + [d]
  {
    hide PutEntry, PutRec, Tiles, Live, EntryAt, Size;
    var b1 := PutEntry(b, o + used, d);
    PutEntryFields(b, o + used, d);
    var b2 := PutRec(b1, o + used, n - o - used);
    PutRecFields(b1, o + used, n - o - used);
    SameEntry(b1, b2, o + used);
    var b' := PutRec(b2, o, used);
    PutRecFields(b2, o, used);
    FirstPart(b, b2, b', o, used, e);
    SecondPart(b2, b', o + used, n, d);
    Single(b', o, o + used);
    Widen(b', o, o + used, n);
  }

  lemma SameEntry(b: Bytes, c: Bytes, o: nat)
    requires |c| == |b| && o + 8 <= |b| && o + 8 + NameLen(b, o) <= |b| && InodeAt(c, o) == InodeAt(b, o) && NameLen(c, o) == NameLen(b, o)
    requires forall i :: o + 6 <= i < o + 8 + NameLen(b, o) ==> c[i] == b[i]
    ensures EntryAt(c, o) == EntryAt(b, o)
  {
    assert c[o + 8..o + 8 + NameLen(b, o)] == b[o + 8..o + 8 + NameLen(b, o)];
  }

  lemma FirstPart(b: Bytes, b2: Bytes, b': Bytes, o: nat, used: nat, e: nat)
    requires RecordOk(b, o, e) && InodeAt(b, o) != 0 && used == Size(NameLen(b, o)) <= RecLen(b, o) && |b'| == |b2| == |b|
    requires forall i :: o <= i < o + used ==> b2[i] == b[i]
    requires forall i :: o + 6 <= i < o + used ==> b'[i] == b[i]
    requires InodeAt(b', o) == InodeAt(b2, o) && NameLen(b', o) == NameLen(b2, o) && RecLen(b', o) == used
    ensures RecordOk(b', o, o + used) && One(b', o, o + used) == One(b, o, e)
  {
    assert InodeAt(b2, o) == InodeAt(b, o) && NameLen(b2, o) == NameLen(b, o);
    SameEntry(b, b', o);
  }

  lemma SecondPart(b2: Bytes, b': Bytes, m: nat, n: nat, d: Dirent)
    requires m + 8 + |d.name| <= n <= |b2| == |b'| && Size(|d.name|) <= n - m && d.ino != 0
    requires RecLen(b2, m) == n - m && NameLen(b2, m) == |d.name| && EntryAt(b2, m) == d
    requires forall i :: m <= i < n ==> b'[i] == b2[i]
    ensures RecordOk(b', m, n) && Tiles(b', m, n) && Live(b', m, n) == [d]
  {
    assert InodeAt(b', m) == InodeAt(b2, m) && RecLen(b', m) == RecLen(b2, m) && NameLen(b', m) == NameLen(b2, m);
    SameEntry(b2, b', m);
    Single(b', m, n);
  }

  /** A free record that is long enough is taken over. */
  lemma ReuseRecord(b: Bytes, o: nat, e: nat, d: Dirent)
    requires RecordOk(b, o, e) && Fits(d) && Size(|d.name|) <= RecLen(b, o)
    ensures var b', n := PutEntry(b, o, d), o + RecLen(b, o);
            Agree(b, b', 0, o) && Agree(b, b', n, |b|) && Tiles(b', o, n) && Live(b', o, n) == [d]
  {
    var b', n := PutEntry(b, o, d), o + RecLen(b, o);
    PutEntryFields(b, o, d);
    SecondPart(b', b', o, n, d);
  }

  /** The first record is removed by marking it free. */
  lemma FreeFirst(b: Bytes, e: nat)
    requires RecordOk(b, 0, e)
    ensures var b', n := PutInode(b, 0, 0), RecLen(b, 0);
            Agree(b, b', 0, 0) && Agree(b, b', n, |b|) && Tiles(b', 0, n) && Live(b', 0, n) == []
  {
    var b', n := PutInode(b, 0, 0), RecLen(b, 0);
    PutInodeFields(b, 0, 0);
    Single(b', 0, n);
  }

  /** A later record is removed by lengthening the one before it. */
  lemma MergeRecord(b: Bytes, p: nat, o: nat, e: nat)
    requires RecordOk(b, p, e) && o == p + RecLen(b, p) && RecordOk(b, o, e) && |b| < 0x1_0000
    ensures var b', n := PutRec(b, p, RecLen(b, p) + RecLen(b, o)), o + RecLen(b, o);
            Agree(b, b', 0, p) && Agree(b, b', n, |b|) && Tiles(b', p, n) && Live(b', p, n) == One(b, p, e)
  {
    var b', n := PutRec(b, p, RecLen(b, p) + RecLen(b, o)), o + RecLen(b, o);
    PutRecFields(b, p, RecLen(b, p) + RecLen(b, o));
    if InodeAt(b, p) != 0 {
      SameEntry(b, b', p);
    }
    Single(b', p, n);
  }
}
