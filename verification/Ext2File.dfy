/** Reading and setting the block pointers of an inode, and truncating it (kernel/vfs/ext2.c). */
module Ext2File {
  import opened Ext2Tree
  import opened Ext2Bitmap

  datatype Lookup = Found(block: nat) | TooBig | IoError

  /** Following words `js` from block `b`, with no test of `b` itself: block 0 is read like any other. */
  function Deref(disk: Disk, b: nat, js: seq<nat>): (r: Lookup)
    requires |js| > 0
    ensures r != TooBig
    decreases |js|
  {
    if b !in disk || js[0] >= |disk[b]| then IoError
    else
      var c := disk[b][js[0]];
      if |js| == 1 || c == 0 then Found(c) else Deref(disk, c, js[1..])
  }

  function Extend(a: Place, js: seq<nat>): Place
    decreases |js|
  {
    if js == [] then a else Extend(Child(a, js[0]), js[1..])
  }

  predicate Words(js: seq<nat>, ptrs: nat) {
    forall i :: 0 <= i < |js| ==> js[i] < ptrs
  }

  lemma {:induction false} ExtendPlace(a: Place, js: seq<nat>, ptrs: nat)
    requires IsPlace(a, ptrs) && Level(a) >= |js| && Words(js, ptrs)
    ensures IsPlace(Extend(a, js), ptrs) && Level(Extend(a, js)) == Level(a) - |js|
    decreases |js|
  {
    if js != [] {
      ExtendPlace(Child(a, js[0]), js[1..], ptrs);
    }
  }

  lemma {:induction false} HoleBelow(disk: Disk, roots: seq<nat>, a: Place, js: seq<nat>)
    requires Ptr(disk, roots, a) == 0
    ensures Ptr(disk, roots, Extend(a, js)) == 0
    decreases |js|
  {
    if js != [] {
      HoleBelow(disk, roots, Child(a, js[0]), js[1..]);
    }
  }

  /** Below an allocated block the words lead to what the tree says. */
  lemma {:induction false} DerefPtr(disk: Disk, roots: seq<nat>, ptrs: nat, count: nat, a: Place, js: seq<nat>)
    requires Stored(disk, ptrs, count) && InRange(disk, roots, ptrs, count) && IsPlace(a, ptrs) && Level(a) >= |js| > 0 && Words(js, ptrs)
    requires Ptr(disk, roots, a) != 0
    ensures Deref(disk, Ptr(disk, roots, a), js) == Found(Ptr(disk, roots, Extend(a, js)))
    decreases |js|
  {
    var c := Child(a, js[0]);
    assert Ptr(disk, roots, a) < count;
    if |js| == 1 {
      assert js[1..] == [];
    } else if Ptr(disk, roots, c) == 0 {
      HoleBelow(disk, roots, c, js[1..]);
    } else {
      DerefPtr(disk, roots, ptrs, count, c, js[1..]);
    }
  }

  /** The slot of `i_block` a file block is reached through, and the words below it. */
  function SlotOf(index: nat, ptrs: nat): nat {
    if index < 12 then index else if index - 12 < ptrs then 12 else if index - 12 - ptrs < Square(ptrs) then 13 else 14
  }

  function WordsOf(index: nat, ptrs: nat): seq<nat>
    requires ptrs > 0
  {
    var square := Square(ptrs);
    if index < 12 then []
    else if index - 12 < ptrs then [index - 12]
    else if index - 12 - ptrs < square then [Row(index - 12 - ptrs, ptrs), Col(index - 12 - ptrs, ptrs)]
    else
      SquarePositive(ptrs);
      var i := index - 12 - ptrs - square;
      [Row(i, square), Row(Col(i, square), ptrs), Col(Col(i, square), ptrs)]
  }

  lemma WordsOfPlace(index: nat, ptrs: nat)
    requires ptrs > 0 && InFile(index, ptrs)
    ensures SlotOf(index, ptrs) < 15 && Extend(Slot(SlotOf(index, ptrs)), WordsOf(index, ptrs)) == PlaceOf(index, ptrs)
    ensures Words(WordsOf(index, ptrs), ptrs) && |WordsOf(index, ptrs)| == Level(Slot(SlotOf(index, ptrs)))
  {
    hide Times, Row, Col;
    if index < 12 {
    } else if index - 12 < ptrs {
      ExtendOne(Slot(12), index - 12);
    } else if index - 12 - ptrs < Square(ptrs) {
      var i := index - 12 - ptrs;
      RowCol(i, ptrs, ptrs);
      ExtendTwo(Slot(13), Row(i, ptrs), Col(i, ptrs));
    } else {
      SquarePositive(ptrs);
      var i := index - 12 - ptrs - Square(ptrs);
      RowCol(i, Square(ptrs), ptrs);
      RowCol(Col(i, Square(ptrs)), ptrs, ptrs);
      ExtendThree(Slot(14), Row(i, Square(ptrs)), Row(Col(i, Square(ptrs)), ptrs), Col(Col(i, Square(ptrs)), ptrs));
    }
  }

  lemma WordsCases(index: nat, ptrs: nat)
    requires ptrs > 0 && index >= 12
    ensures var i, square := index - 12, Square(ptrs);
            if i < ptrs then InFile(index, ptrs) && SlotOf(index, ptrs) == 12 && WordsOf(index, ptrs) == [i]
            else if i - ptrs < square then
              InFile(index, ptrs) && SlotOf(index, ptrs) == 13 && WordsOf(index, ptrs) == [Row(i - ptrs, ptrs), Col(i - ptrs, ptrs)]
            else if i - ptrs - square < Cube(ptrs) then
              SquarePositive(ptrs);
              && InFile(index, ptrs) && SlotOf(index, ptrs) == 14
              && WordsOf(index, ptrs) == [Row(i - ptrs - square, square), Row(Col(i - ptrs - square, square), ptrs),
                                          Col(Col(i - ptrs - square, square), ptrs)]
            else !InFile(index, ptrs)
  {
    hide Times, Row, Col;
  }

  lemma ExtendOne(a: Place, i: nat)
    ensures Extend(a, [i]) == Child(a, i)
  {
    assert [i][1..] == [];
  }

  lemma ExtendTwo(a: Place, i: nat, j: nat)
    ensures Extend(a, [i, j]) == Child(Child(a, i), j)
  {
    assert [i, j][1..] == [j];
    ExtendOne(Child(a, i), j);
  }

  lemma ExtendThree(a: Place, h: nat, i: nat, j: nat)
    ensures Extend(a, [h, i, j]) == Child(Child(Child(a, h), i), j)
  {
    assert [h, i, j][1..] == [i, j];
    ExtendTwo(Child(a, h), i, j);
  }

  /** What `ext2_read_block_ptr` answers. */
  function ReadOf(disk: Disk, roots: seq<nat>, index: nat, ptrs: nat): Lookup
    requires |roots| == 15 && ptrs > 0
  {
    if !InFile(index, ptrs) then TooBig
    else if index < 12 then Found(roots[index])
    else Deref(disk, roots[SlotOf(index, ptrs)], WordsOf(index, ptrs))
  }

  /** Under an allocated slot that is the tree's pointer. */
  lemma ReadExact(disk: Disk, roots: seq<nat>, ptrs: nat, count: nat, index: nat)
    requires Tree(disk, roots, ptrs, count) && ptrs > 0 && InFile(index, ptrs) && (index < 12 || roots[SlotOf(index, ptrs)] != 0)
    ensures ReadOf(disk, roots, index, ptrs) == Found(Ptr(disk, roots, PlaceOf(index, ptrs)))
  {
    if index >= 12 {
      WordsOfPlace(index, ptrs);
      DerefPtr(disk, roots, ptrs, count, Slot(SlotOf(index, ptrs)), WordsOf(index, ptrs));
    }
  }

  /** Blocks `t`, from `b` on, each named by its word of the block before, all of them on the device but the last, which
      is 0. */
  predicate ZeroTrail(disk: Disk, b: nat, js: seq<nat>, t: seq<nat>) {
    && 2 <= |t| <= |js| + 1 && t[0] == b && t[|t| - 1] == 0
    && forall i :: 0 <= i < |t| - 1 ==> t[i] in disk && js[i] < |disk[t[i]]| && t[i + 1] == disk[t[i]][js[i]]
  }

  lemma {:induction false} TrailDeref(disk: Disk, b: nat, js: seq<nat>, t: seq<nat>)
    requires |js| > 0 && ZeroTrail(disk, b, js, t)
    ensures Deref(disk, b, js) == Found(0)
    decreases |js|
  {
    if |js| > 1 && t[1] != 0 {
      var u := t[1..];
      forall i | 0 <= i < |u| - 1 ensures u[i] in disk && js[1..][i] < |disk[u[i]]| && u[i + 1] == disk[u[i]][js[1..][i]] {
        assert u[i] == t[i + 1] && js[1..][i] == js[i + 1] && u[i + 1] == t[i + 2];
      }
      TrailDeref(disk, t[1], js[1..], t[1..]);
    }
  }

  lemma {:induction false} DerefTrail(disk: Disk, b: nat, js: seq<nat>) returns (t: seq<nat>)
    requires |js| > 0 && Deref(disk, b, js) == Found(0)
    ensures ZeroTrail(disk, b, js, t)
    decreases |js|
  {
    var c := disk[b][js[0]];
    if c == 0 {
      return [b, 0];
    }
    var rest := DerefTrail(disk, c, js[1..]);
    t := [b] + rest;
    assert forall i :: 0 < i < |js| ==> js[i] == js[1..][i - 1];
  }

  /** Under a slot that is 0 every file block is a hole, but the lookup reads block 0 as if it were the index: the answer
      is a hole exactly when the words followed from block 0 come to a 0 before they leave the device. */
  lemma HoleRead(disk: Disk, roots: seq<nat>, ptrs: nat, index: nat)
    requires |roots| == 15 && ptrs > 0 && InFile(index, ptrs) && index >= 12 && roots[SlotOf(index, ptrs)] == 0
    ensures Ptr(disk, roots, PlaceOf(index, ptrs)) == 0
    ensures ReadOf(disk, roots, index, ptrs) == Found(0) <==> exists t :: ZeroTrail(disk, 0, WordsOf(index, ptrs), t)
  {
    WordsOfPlace(index, ptrs);
    var k, js := SlotOf(index, ptrs), WordsOf(index, ptrs);
    assert Ptr(disk, roots, Slot(k)) == 0;
    HoleBelow(disk, roots, Slot(k), js);
    hide Deref, ZeroTrail;
    forall t | ZeroTrail(disk, 0, js, t) ensures Deref(disk, 0, js) == Found(0) { TrailDeref(disk, 0, js, t); }
    if Deref(disk, 0, js) == Found(0) {
      var t := DerefTrail(disk, 0, js);
    }
  }

  /** An inode without blocks, on a device whose block 0 is not empty: file block 12 reads as block 5. */
  lemma HoleExample(disk: Disk, roots: seq<nat>)
    requires disk == map[0 := [5, 0]] && roots == seq(15, _ => 0)
    ensures Ptr(disk, roots, PlaceOf(12, 2)) == 0 && ReadOf(disk, roots, 12, 2) == Found(5)
  {
    HoleRead(disk, roots, 2, 12);
  }

  /** After a successful set, block `index` reads as `y` and every other block under an allocated slot reads as before. */
  lemma SetRead(disk: Disk, roots: seq<nat>, disk': Disk, roots': seq<nat>, ptrs: nat, count: nat, index: nat, y: nat, other: nat)
    requires Tree(disk, roots, ptrs, count) && Tree(disk', roots', ptrs, count) && ptrs > 0 && InFile(index, ptrs)
    requires y != 0 && Grows(disk, roots, disk', roots', ptrs, PlaceOf(index, ptrs), y)
    ensures ReadOf(disk', roots', index, ptrs) == Found(y)
    ensures other != index && (other < 12 || roots[SlotOf(other, ptrs)] != 0) ==>
              ReadOf(disk', roots', other, ptrs) == ReadOf(disk, roots, other, ptrs)
  {
    PlaceOfIndex(index, ptrs);
    WordsOfPlace(index, ptrs);
    if index >= 12 && roots'[SlotOf(index, ptrs)] == 0 {
      assert Ptr(disk', roots', Slot(SlotOf(index, ptrs))) == 0;
      HoleBelow(disk', roots', Slot(SlotOf(index, ptrs)), WordsOf(index, ptrs));
    }
    ReadExact(disk', roots', ptrs, count, index);
    if other != index && InFile(other, ptrs) && (other < 12 || roots[SlotOf(other, ptrs)] != 0) {
      PlaceOfIndex(other, ptrs);
      ReadExact(disk, roots, ptrs, count, other);
      if other >= 12 {
        SlotKept(disk, roots, disk', roots', ptrs, PlaceOf(index, ptrs), y, SlotOf(other, ptrs));
      }
      ReadExact(disk', roots', ptrs, count, other);
    }
  }

  lemma SlotKept(disk: Disk, roots: seq<nat>, disk': Disk, roots': seq<nat>, ptrs: nat, p: Place, y: nat, k: nat)
    requires |roots| == |roots'| == 15 && Grows(disk, roots, disk', roots', ptrs, p, y) && Level(p) == 0 && 12 <= k < 15 && roots[k] != 0
    ensures roots'[k] == roots[k]
  {
    assert IsPlace(Slot(k), ptrs) && Ptr(disk, roots, Slot(k)) != 0 && Ptr(disk', roots', Slot(k)) == roots'[k];
  }

  // ----- marks -----

  /** Every block the tree names is marked used. */
  ghost predicate Marked(disk: Disk, roots: seq<nat>, ptrs: nat, groups: seq<Group>, perGroup: nat)
    requires perGroup > 0 && Counted(groups, perGroup)
  {
    forall p :: IsPlace(p, ptrs) && Ptr(disk, roots, p) != 0 ==> Bit(groups, perGroup, Ptr(disk, roots, p))
  }

  /** The pointers an allocation on the way to `p` may touch are those that were missing. */
  ghost predicate Grows(disk: Disk, roots: seq<nat>, disk': Disk, roots': seq<nat>, ptrs: nat, p: Place, y: nat) {
    forall q :: IsPlace(q, ptrs) && (q == p || Level(q) == 0 || Ptr(disk, roots, q) != 0) ==>
      Ptr(disk', roots', q) == if q == p then y else Ptr(disk, roots, q)
  }

  /** Block `b` holds no pointers of the tree. */
  ghost predicate Outside(disk: Disk, roots: seq<nat>, ptrs: nat, b: nat) {
    forall q :: IsPlace(q, ptrs) && Level(q) > 0 ==> Ptr(disk, roots, q) != b
  }

  lemma SetsGrows(disk: Disk, roots: seq<nat>, disk': Disk, roots': seq<nat>, ptrs: nat, p: Place, y: nat)
    requires Sets(disk, roots, disk', roots', ptrs, p, y)
    ensures Grows(disk, roots, disk', roots', ptrs, p, y)
  {
  }

  lemma GrowsAfter(disk: Disk, roots: seq<nat>, disk1: Disk, roots1: seq<nat>, disk2: Disk, roots2: seq<nat>, ptrs: nat, a: Place, n: nat, p: Place, y: nat)
    requires Sets(disk, roots, disk1, roots1, ptrs, a, n) && Grows(disk1, roots1, disk2, roots2, ptrs, p, y)
    requires Level(a) > 0 && Ptr(disk, roots, a) == 0 && p != a
    ensures Grows(disk, roots, disk2, roots2, ptrs, p, y)
  {
    hide Ptr, IsPlace, Level;
  }

  lemma SetsMarked(disk: Disk, roots: seq<nat>, disk': Disk, roots': seq<nat>, ptrs: nat, p: Place, y: nat,
                   groups: seq<Group>, groups': seq<Group>, perGroup: nat)
    requires perGroup > 0 && Counted(groups, perGroup) && Counted(groups', perGroup)
    requires Marked(disk, roots, ptrs, groups, perGroup) && Sets(disk, roots, disk', roots', ptrs, p, y)
    requires Bit(groups', perGroup, y) && forall b: nat :: Bit(groups, perGroup, b) ==> Bit(groups', perGroup, b)
    ensures Marked(disk', roots', ptrs, groups', perGroup)
  {
    hide Bit, IsPlace, Ptr, Counted;
  }

  /** A block marked free is named by no place. */
  lemma UnmarkedFree(disk: Disk, roots: seq<nat>, ptrs: nat, groups: seq<Group>, perGroup: nat, b: nat)
    requires perGroup > 0 && Counted(groups, perGroup) && Marked(disk, roots, ptrs, groups, perGroup) && !Bit(groups, perGroup, b) && b != 0
    ensures Free(disk, roots, ptrs, b)
  {
  }

  /** The index blocks that are absent on the way from place `a` along words `js`. */
  ghost function Missing(disk: Disk, roots: seq<nat>, a: Place, js: seq<nat>): nat
    decreases |js|
  {
    if js == [] then 0
    else (if Ptr(disk, roots, a) == 0 then 1 else 0) + Missing(disk, roots, Child(a, js[0]), js[1..])
  }

  /** Those on the way to file block `index`. */
  ghost function MissingFor(disk: Disk, roots: seq<nat>, index: nat, ptrs: nat): nat
    requires ptrs > 0
  {
    Missing(disk, roots, Slot(SlotOf(index, ptrs)), WordsOf(index, ptrs))
  }

  /** A pointer set higher up does not change what is absent below. */
  lemma {:induction false} MissingSets(disk: Disk, roots: seq<nat>, disk': Disk, roots': seq<nat>, ptrs: nat, p: Place, y: nat,
                                       a: Place, js: seq<nat>)
    requires Sets(disk, roots, disk', roots', ptrs, p, y) && IsPlace(a, ptrs) && |js| <= Level(a) < Level(p) && Words(js, ptrs)
    ensures Missing(disk', roots', a, js) == Missing(disk, roots, a, js)
    decreases |js|
  {
    if js != [] {
      MissingSets(disk, roots, disk', roots', ptrs, p, y, Child(a, js[0]), js[1..]);
    }
  }

  /** Linking the block that is missing at `p` leaves one less to make. */
  lemma MissingLinked(disk: Disk, roots: seq<nat>, disk': Disk, roots': seq<nat>, ptrs: nat, p: Place, y: nat, js: seq<nat>)
    requires Sets(disk, roots, disk', roots', ptrs, p, y) && IsPlace(p, ptrs) && Level(p) == |js| > 0 && Words(js, ptrs)
    requires Ptr(disk, roots, p) == 0
    ensures Missing(disk, roots, p, js) == 1 + Missing(disk', roots', Child(p, js[0]), js[1..])
  {
    MissingSets(disk, roots, disk', roots', ptrs, p, y, Child(p, js[0]), js[1..]);
  }

  lemma MissingPresent(disk: Disk, roots: seq<nat>, p: Place, js: seq<nat>)
    requires Ptr(disk, roots, p) != 0 && js != []
    ensures Missing(disk, roots, p, js) == Missing(disk, roots, Child(p, js[0]), js[1..])
  {
  }

  lemma MissingAbsent(disk: Disk, roots: seq<nat>, p: Place, js: seq<nat>)
    requires Ptr(disk, roots, p) == 0 && js != []
    ensures Missing(disk, roots, p, js) > 0
  {
  }

  lemma MissingNone(disk: Disk, roots: seq<nat>, p: Place)
    ensures Missing(disk, roots, p, []) == 0
  {
  }

  /** In `ext2_inode`, the part that says where the data is. */
  class Inode {
    var blocks: seq<nat>
    var size: nat
  }

  class FileSystem {
    const volume: Volume
    /** Pointers a block holds: the block size over four. */
    const ptrs: nat
    var disk: Disk

    constructor (v: Volume, words: nat, d: Disk)
      ensures volume == v && ptrs == words && disk == d
    {
      volume := v;
      ptrs := words;
      disk := d;
    }

    ghost predicate Valid()
      reads this, volume
    {
      ptrs > 0 && volume.Valid() && Stored(disk, ptrs, volume.count) && 0 in disk && |disk[0]| == ptrs
    }

    /** The pointers of an inode form a tree of blocks marked used. */
    ghost predicate Rooted(d: Disk, roots: seq<nat>)
      requires volume.Valid()
      reads this, volume
    {
      Tree(d, roots, ptrs, volume.count) && Marked(d, roots, ptrs, volume.groups, volume.perGroup)
    }

    method ReadBlock(b: nat) returns (ok: bool, words: seq<nat>)
      requires Valid()
      ensures ok <==> b in disk
      ensures ok ==> words == disk[b]
    {
      if b in disk {
        return true, disk[b];
      }
      return false, [];
    }

    /** The last step of a lookup: word `j` of index block `b`. */
    method ReadWord(b: nat, j: nat) returns (r: Lookup)
      requires Valid() && j < ptrs && (forall b :: b in disk ==> |disk[b]| == ptrs)
      ensures r == Deref(disk, b, [j])
    {
      var ok, words := ReadBlock(b);
      r := if ok then Found(words[j]) else IoError;
    }

    /** Two levels of a lookup: word `j` of the index block that word `i` of `b` names. */
    method ReadPair(b: nat, i: nat, j: nat) returns (r: Lookup)
      requires Valid() && i < ptrs && j < ptrs && (forall b :: b in disk ==> |disk[b]| == ptrs)
      ensures r == Deref(disk, b, [i, j])
    {
      r := ReadWord(b, i);
      DerefStep(disk, b, i, [j]);
      assert [i] + [j] == [i, j];
      hide Deref;
      if r.Found? && r.block != 0 {
        r := ReadWord(r.block, j);
      }
    }

    /** Three levels. */
    method ReadCube(b: nat, h: nat, i: nat, j: nat) returns (r: Lookup)
      requires Valid() && h < ptrs && i < ptrs && j < ptrs && (forall b :: b in disk ==> |disk[b]| == ptrs)
      ensures r == Deref(disk, b, [h, i, j])
    {
      hide Deref;
      r := ReadWord(b, h);
      DerefStep(disk, b, h, [i, j]);
      assert [h] + [i, j] == [h, i, j];
      if r.Found? && r.block != 0 {
        r := ReadPair(r.block, i, j);
      }
    }

    /** `ext2_read_block_ptr`. */
    method ReadPtr(inode: Inode, index: nat) returns (r: Lookup)
      requires Valid() && |inode.blocks| == 15 && (forall b :: b in disk ==> |disk[b]| == ptrs)
      ensures r == ReadOf(disk, inode.blocks, index, ptrs)
    {
      hide Deref, Stored, Times, Row, Col;
      if index < 12 {
        return Found(inode.blocks[index]);
      }
      var i := index - 12;
      var square := Square(ptrs);
      if i < ptrs {
        r := ReadWord(inode.blocks[12], i);
        return;
      }
      i := i - ptrs;
      if i < square {
        RowCol(i, ptrs, ptrs);
        r := ReadPair(inode.blocks[13], Row(i, ptrs), Col(i, ptrs));
        return;
      }
      i := i - square;
      if i < Cube(ptrs) {
        SquarePositive(ptrs);
        RowCol(i, square, ptrs);
        RowCol(Col(i, square), ptrs, ptrs);
        r := ReadCube(inode.blocks[14], Row(i, square), Row(Col(i, square), ptrs), Col(Col(i, square), ptrs));
        return;
      }
      r := TooBig;
    }

    // ----- setting a pointer -----

    /** The disk as the caller of `SetBelow` sees it: a fresh index block is not written yet and counts as zero. */
    ghost function Pending(block: nat, unwritten: bool): Disk
      reads this
    {
      if unwritten then disk[block := Zeros(ptrs)] else disk
    }

    /** The disk as it would be had block `b` been zeroed. */
    ghost function Blanked(b: nat): Disk
      reads this
    {
      disk[b := Zeros(ptrs)]
    }

    /** Block `b` still has the contents it had. */
    ghost predicate Unwritten(before: Disk, b: nat)
      reads this
    {
      b in before && b in disk && disk[b] == before[b]
    }

    /** `ext2_set_block_ptr`, for a freshly allocated block. When the volume runs full on the way, `lost` is the index
        block that has been linked but never written. */
    method SetPtr(inode: Inode, index: nat, phys: nat) returns (ok: bool, ghost lost: nat)
      requires Valid() && Rooted(disk, inode.blocks)
      requires 0 < phys < volume.count && volume.Used(phys) && Free(disk, inode.blocks, ptrs, phys)
      modifies this, volume`groups, inode`blocks
      ensures Valid() && forall b: nat :: old(volume.Used(b)) ==> volume.Used(b)
      ensures ok ==> InFile(index, ptrs) && Rooted(disk, inode.blocks)
      ensures ok ==> Grows(old(disk), old(inode.blocks), disk, inode.blocks, ptrs, PlaceOf(index, ptrs), phys)
      ensures ok ==> forall b :: b in disk && old(volume.Used(b)) && old(Outside(disk, inode.blocks, ptrs, b)) ==>
        b in old(disk) && disk[b] == old(disk)[b]
      ensures ok <==> InFile(index, ptrs) && |old(volume.Available())| >= MissingFor(old(disk), old(inode.blocks), index, ptrs)
      ensures lost != 0 <==> InFile(index, ptrs) && 0 < |old(volume.Available())| < MissingFor(old(disk), old(inode.blocks), index, ptrs)
      ensures !ok && lost == 0 ==> disk == old(disk) && inode.blocks == old(inode.blocks) && volume.groups == old(volume.groups)
      ensures lost != 0 ==>
        && volume.Available() == {} && lost in old(volume.Available()) && Unwritten(old(disk), lost)
        && Rooted(Blanked(lost), inode.blocks) && !Outside(Blanked(lost), inode.blocks, ptrs, lost)
        && SameData(old(disk), old(inode.blocks), Blanked(lost), inode.blocks, ptrs)
    {
      lost := 0;
      if index < 12 {
        MissingNone(disk, inode.blocks, Slot(index));
        SetDirect(inode, index, phys);
        return true, 0;
      }
      if InFile(index, ptrs) {
        WordsOfPlace(index, ptrs);
      }
      WordsCases(index, ptrs);
      hide Rooted, Grows, PlaceOf, Free, Outside, Words, Extend, Stored, Times, Row, Col, Unwritten, Blanked, SameData, Missing;
      hide SlotOf, WordsOf, InFile;
      var i, square := index - 12, Square(ptrs);
      if i < ptrs {
        ok, lost := SetFrom(inode, 12, [i], phys);
      } else if i - ptrs < square {
        i := i - ptrs;
        ok, lost := SetFrom(inode, 13, [Row(i, ptrs), Col(i, ptrs)], phys);
      } else if i - ptrs - square < Cube(ptrs) {
        i := i - ptrs - square;
        SquarePositive(ptrs);
        ok, lost := SetFrom(inode, 14, [Row(i, square), Row(Col(i, square), ptrs), Col(Col(i, square), ptrs)], phys);
      } else {
        ok := false;
      }
    }

    method SetDirect(inode: Inode, k: nat, phys: nat)
      requires Valid() && Rooted(disk, inode.blocks) && k < 12
      requires 0 < phys < volume.count && volume.Used(phys) && Free(disk, inode.blocks, ptrs, phys)
      modifies inode`blocks
      ensures InFile(k, ptrs) && Rooted(disk, inode.blocks)
      ensures Grows(disk, old(inode.blocks), disk, inode.blocks, ptrs, PlaceOf(k, ptrs), phys)
    {
      hide Tree, Marked, Sets, Ptr, Bit, Grows, Free, Counted;
      assert |inode.blocks| == 15 by { FifteenSlots(disk, inode.blocks, ptrs, volume.count); }
      SlotStep(disk, inode.blocks, ptrs, volume.count, volume.groups, volume.perGroup, k, phys);
      SetsGrows(disk, inode.blocks, disk, inode.blocks[k := phys], ptrs, Slot(k), phys);
      inode.blocks := inode.blocks[k := phys];
    }

    /** The part the three indirect branches share: the slot's own index block is made if it is missing. */
    method SetFrom(inode: Inode, k: nat, js: seq<nat>, phys: nat) returns (ok: bool, ghost lost: nat)
      requires Valid() && Rooted(disk, inode.blocks) && 12 <= k < 15 && |js| == k - 11 && Words(js, ptrs)
      requires 0 < phys < volume.count && volume.Used(phys) && Free(disk, inode.blocks, ptrs, phys)
      modifies this, volume`groups, inode`blocks
      ensures Valid() && forall b: nat :: old(volume.Used(b)) ==> volume.Used(b)
      ensures ok ==> Rooted(disk, inode.blocks)
      ensures ok ==> Grows(old(disk), old(inode.blocks), disk, inode.blocks, ptrs, Extend(Slot(k), js), phys)
      ensures ok ==> forall b :: b in disk && old(volume.Used(b)) && old(Outside(disk, inode.blocks, ptrs, b)) ==>
        b in old(disk) && disk[b] == old(disk)[b]
      ensures ok <==> |old(volume.Available())| >= Missing(old(disk), old(inode.blocks), Slot(k), js)
      ensures lost != 0 <==> 0 < |old(volume.Available())| < Missing(old(disk), old(inode.blocks), Slot(k), js)
      ensures !ok && lost == 0 ==> disk == old(disk) && inode.blocks == old(inode.blocks) && volume.groups == old(volume.groups)
      ensures lost != 0 ==>
        && volume.Available() == {} && lost in old(volume.Available()) && Unwritten(old(disk), lost)
        && Rooted(Blanked(lost), inode.blocks) && !Outside(Blanked(lost), inode.blocks, ptrs, lost)
        && SameData(old(disk), old(inode.blocks), Blanked(lost), inode.blocks, ptrs)
    {
      lost := 0;
      assert |inode.blocks| == 15 && Ptr(disk, inode.blocks, Slot(k)) == inode.blocks[k];
      hide Tree, Marked, Sets, Ptr, Bit, Grows, Outside, Free, Counted, Extend, SameData, Missing;
      if inode.blocks[k] != 0 {
        MissingPresent(disk, inode.blocks, Slot(k), js);
        ok, lost := SetBelow(inode.blocks, Slot(k), inode.blocks[k], false, js, phys);
        return;
      }
      ghost var groups0, roots0, d0 := volume.groups, inode.blocks, disk;
      var got, n := volume.Alloc();
      if !got {
        MissingAbsent(disk, inode.blocks, Slot(k), js);
        return false, 0;
      }
      forall b: nat ensures Bit(volume.groups, volume.perGroup, b) <==> b == n || Bit(groups0, volume.perGroup, b) {
        assert volume.Used(b) <==> b == n || old(volume.Used(b));
      }
      RootStep(disk, roots0, ptrs, volume.count, groups0, volume.groups, volume.perGroup, k, n, phys);
      inode.blocks := inode.blocks[k := n];
      SlotPtr(disk[n := Zeros(ptrs)], inode.blocks, k);
      ghost var d1 := Pending(n, true);
      MissingLinked(d0, roots0, d1, inode.blocks, ptrs, Slot(k), n, js);
      ok, lost := SetBelow(inode.blocks, Slot(k), n, true, js, phys);
      if !ok {
        SetsSameData(d0, roots0, d1, inode.blocks, ptrs, Slot(k), n);
        SameDataTrans(d0, roots0, d1, inode.blocks, Blanked(lost), inode.blocks, ptrs);
      } else {
        SlotFacts(d0, roots0, k, js, ptrs);
        GrowsAfter(d0, roots0, d1, inode.blocks, disk, inode.blocks, ptrs, Slot(k), n, Extend(Slot(k), js), phys);
        forall b | b in disk && old(volume.Used(b)) && Outside(d0, roots0, ptrs, b) ensures b in d0 && disk[b] == d0[b] {
          OutsideAfter(d0, roots0, d1, inode.blocks, ptrs, Slot(k), n, b);
        }
      }
    }

    /** An index block is allocated for word `j` of `block`, and `block` is written with its number. */
    method LinkIndex(ghost roots: seq<nat>, ghost a: Place, block: nat, ghost unwritten: bool, words: seq<nat>, j: nat, ghost phys: nat)
      returns (got: bool, n: nat)
      requires Valid() && IsPlace(a, ptrs) && Level(a) > 1 && j < ptrs == |words| && words[j] == 0
      requires Rooted(Pending(block, unwritten), roots) && Ptr(Pending(block, unwritten), roots, a) == block != 0
      requires block in Pending(block, unwritten) && Pending(block, unwritten)[block] == words
      requires Ptr(Pending(block, unwritten), roots, Child(a, j)) == 0 && 0 < block < volume.count && volume.Used(block)
      requires volume.Used(phys) && Free(Pending(block, unwritten), roots, ptrs, phys)
      modifies this, volume`groups
      ensures Valid() && (got <==> old(volume.Available()) != {})
      ensures !got ==> disk == old(disk) && volume.groups == old(volume.groups)
      ensures got ==> n != 0 && n != block && n in old(volume.Available()) && volume.Available() == old(volume.Available()) - {n}
      ensures got ==> disk == old(disk)[block := words[j := n]] && forall b: nat :: volume.Used(b) <==> b == n || old(volume.Used(b))
      ensures got ==> Rooted(Pending(n, true), roots) && Ptr(Pending(n, true), roots, Child(a, j)) == n
      ensures got ==> Sets(old(Pending(block, unwritten)), roots, Pending(n, true), roots, ptrs, Child(a, j), n)
      ensures got ==> Free(Pending(n, true), roots, ptrs, phys)
    {
      hide Tree, Marked, Sets, Ptr, Bit, Free, Counted, IsPlace;
      ghost var d0, groups0 := Pending(block, unwritten), volume.groups;
      got, n := volume.Alloc();
      if !got {
        return;
      }
      forall b: nat ensures Bit(volume.groups, volume.perGroup, b) <==> b == n || Bit(groups0, volume.perGroup, b) {
        assert volume.Used(b) <==> b == n || old(volume.Used(b));
      }
      LinkStep(d0, roots, ptrs, volume.count, groups0, volume.groups, volume.perGroup, a, j, n, phys);
      disk := disk[block := words[j := n]];
      assert Pending(n, true) == PutWord(d0, block, j, n)[n := Zeros(ptrs)];
    }

    /** The levels of `ext2_set_block_ptr` below index block `block`, which sits at `a`. */
    method SetBelow(roots: seq<nat>, ghost a: Place, block: nat, unwritten: bool, js: seq<nat>, phys: nat)
      returns (ok: bool, ghost lost: nat)
      requires Valid() && IsPlace(a, ptrs) && Level(a) == |js| > 0 && Words(js, ptrs)
      requires Rooted(Pending(block, unwritten), roots) && Ptr(Pending(block, unwritten), roots, a) == block != 0
      requires 0 < phys < volume.count && volume.Used(phys) && Free(Pending(block, unwritten), roots, ptrs, phys)
      modifies this, volume`groups
      ensures Valid() && forall b: nat :: old(volume.Used(b)) ==> volume.Used(b)
      ensures ok ==> Rooted(disk, roots) && Grows(old(Pending(block, unwritten)), roots, disk, roots, ptrs, Extend(a, js), phys)
      ensures ok ==> forall b :: b in disk && old(volume.Used(b)) && Outside(old(Pending(block, unwritten)), roots, ptrs, b) ==>
        b in old(disk) && disk[b] == old(disk)[b]
      ensures ok <==> |old(volume.Available())| >= Missing(old(Pending(block, unwritten)), roots, Child(a, js[0]), js[1..])
      ensures lost != 0 <==> !ok && (unwritten || old(volume.Available()) != {})
      ensures !ok && lost == 0 ==> disk == old(disk) && volume.groups == old(volume.groups)
      ensures lost != 0 ==>
        && volume.Available() == {} && ((unwritten && lost == block) || lost in old(volume.Available())) && Unwritten(old(disk), lost)
        && Rooted(Blanked(lost), roots) && !Outside(Blanked(lost), roots, ptrs, lost)
        && SameData(old(Pending(block, unwritten)), roots, Blanked(lost), roots, ptrs)
      decreases |js|
    {
      hide Tree, Marked, Sets, Ptr, Bit, Grows, Outside, Free, Counted, IsPlace, Extend, SameData, Missing;
      lost := 0;
      ghost var d0 := Pending(block, unwritten);
      BlockMarked(d0, roots, ptrs, volume.groups, volume.perGroup, a);
      EntryFacts(d0, roots, ptrs, volume.count, a, js[0]);
      var words: seq<nat> := if unwritten then Zeros(ptrs) else disk[block];
      assert d0[block] == words && |words| == ptrs;
      if |js| == 1 {
        ExtendOne(a, js[0]);
        assert js == [js[0]] && js[1..] == [];
        MissingNone(d0, roots, Child(a, js[0]));
        WriteStep(d0, roots, ptrs, volume.count, volume.groups, volume.perGroup, a, js[0], phys);
        words := words[js[0] := phys];
        disk := disk[block := words];
        assert disk == PutWord(d0, block, js[0], phys);
        SetsGrows(d0, roots, disk, roots, ptrs, Child(a, js[0]), phys);
        forall b | Outside(d0, roots, ptrs, b) ensures b != block { OutsideNot(d0, roots, ptrs, a, b); }
        return true, 0;
      }
      if words[js[0]] == 0 {
        var got, n := LinkIndex(roots, a, block, unwritten, words, js[0], phys);
        if !got {
          MissingAbsent(d0, roots, Child(a, js[0]), js[1..]);
          SameDataRefl(d0, roots, ptrs);
          NotOutside(d0, roots, ptrs, a);
          return false, if unwritten then block else 0;
        }
        ghost var d1 := Pending(n, true);
        MissingLinked(d0, roots, d1, roots, ptrs, Child(a, js[0]), n, js[1..]);
        ok, lost := SetBelow(roots, Child(a, js[0]), n, true, js[1..], phys);
        if !ok {
          BelowNotSelf(a, js, ptrs);
          SetsSameData(d0, roots, d1, roots, ptrs, Child(a, js[0]), n);
          SameDataTrans(d0, roots, d1, roots, Blanked(lost), roots, ptrs);
        } else {
          BelowNotSelf(a, js, ptrs);
          GrowsAfter(d0, roots, d1, roots, disk, roots, ptrs, Child(a, js[0]), n, Extend(a, js), phys);
          forall b | b in disk && old(volume.Used(b)) && Outside(d0, roots, ptrs, b) ensures b in old(disk) && disk[b] == old(disk)[b] {
            OutsideNot(d0, roots, ptrs, a, b);
            OutsideAfter(d0, roots, d1, roots, ptrs, Child(a, js[0]), n, b);
          }
        }
      } else {
        assert !unwritten && d0 == disk;
        BelowNotSelf(a, js, ptrs);
        MissingPresent(d0, roots, Child(a, js[0]), js[1..]);
        ok, lost := SetBelow(roots, Child(a, js[0]), words[js[0]], false, js[1..], phys);
      }
    }
  }

  /** The data pointers are the same. */
  ghost predicate SameData(disk: Disk, roots: seq<nat>, disk': Disk, roots': seq<nat>, ptrs: nat) {
    forall q :: IsPlace(q, ptrs) && Level(q) == 0 ==> Ptr(disk', roots', q) == Ptr(disk, roots, q)
  }

  lemma SameDataRefl(disk: Disk, roots: seq<nat>, ptrs: nat)
    ensures SameData(disk, roots, disk, roots, ptrs)
  {
  }

  lemma SameDataTrans(d0: Disk, r0: seq<nat>, d1: Disk, r1: seq<nat>, d2: Disk, r2: seq<nat>, ptrs: nat)
    requires SameData(d0, r0, d1, r1, ptrs) && SameData(d1, r1, d2, r2, ptrs)
    ensures SameData(d0, r0, d2, r2, ptrs)
  {
  }

  lemma SetsSameData(disk: Disk, roots: seq<nat>, disk': Disk, roots': seq<nat>, ptrs: nat, p: Place, y: nat)
    requires Sets(disk, roots, disk', roots', ptrs, p, y) && Level(p) > 0
    ensures SameData(disk, roots, disk', roots', ptrs)
  {
  }

  lemma BlockMarked(disk: Disk, roots: seq<nat>, ptrs: nat, groups: seq<Group>, perGroup: nat, a: Place)
    requires perGroup > 0 && Counted(groups, perGroup) && Marked(disk, roots, ptrs, groups, perGroup) && IsPlace(a, ptrs) && Ptr(disk, roots, a) != 0
    ensures Bit(groups, perGroup, Ptr(disk, roots, a))
  {
  }

  lemma NotOutside(disk: Disk, roots: seq<nat>, ptrs: nat, a: Place)
    requires IsPlace(a, ptrs) && Level(a) > 0
    ensures !Outside(disk, roots, ptrs, Ptr(disk, roots, a))
  {
  }

  /** Whatever block `b` holds, the pointers that do not go through it are the same. */
  lemma {:induction false} BlankedPtr(disk: Disk, roots: seq<nat>, ptrs: nat, b: nat, p: Place)
    requires b in disk && |disk[b]| == ptrs && Ptr(disk[b := Zeros(ptrs)], roots, p) != 0
    ensures Ptr(disk, roots, p) == Ptr(disk[b := Zeros(ptrs)], roots, p)
  {
    if p.Child? {
      BlankedPtr(disk, roots, ptrs, b, p.up);
    }
  }

  /** What the lost block held before can be anything: if a word of it happens to name the block itself, the pointers
      are no longer a tree. */
  lemma LostBreaks(disk: Disk, roots: seq<nat>, ptrs: nat, count: nat, lost: nat, j: nat)
    requires lost != 0 && lost in disk && |disk[lost]| == ptrs && j < ptrs && disk[lost][j] == lost
    requires !Outside(disk[lost := Zeros(ptrs)], roots, ptrs, lost)
    ensures !Tree(disk, roots, ptrs, count)
  {
    var p :| IsPlace(p, ptrs) && Level(p) > 0 && Ptr(disk[lost := Zeros(ptrs)], roots, p) == lost;
    BlankedPtr(disk, roots, ptrs, lost, p);
    assert IsPlace(Child(p, j), ptrs) && Ptr(disk, roots, p) == Ptr(disk, roots, Child(p, j)) == lost;
  }

  lemma OneFree(groups: seq<Group>)
    requires groups == [Group([true, true, true, false], 1)]
    ensures Counted(groups, 4) && forall b: nat :: Bit(groups, 4, b) <==> b != 3
  {
    assert [true, true, true, false][1..] == [true, true, false] && [true, true, false][1..] == [true, false] && [true, false][1..] == [false];
  }

  /** The first block below an empty double-indirect slot needs two index blocks, on a volume with one free block that
      still holds its own number: the set fails and the inode's pointers are no longer a tree. */
  method LostExample() returns (fs: FileSystem, inode: Inode, ok: bool)
    ensures !ok && !Tree(fs.disk, inode.blocks, fs.ptrs, fs.volume.count)
  {
    var v := new Volume(4, 4, [Group([true, true, true, false], 1)]);
    fs := new FileSystem(v, 2, map[0 := [0, 0], 1 := [0, 0], 2 := [0, 0], 3 := [3, 0]]);
    inode := new Inode;
    inode.blocks := seq(15, _ => 0);
    OneFree(v.groups);
    EmptyTree(fs.disk, inode.blocks, 2, 4);
    assert v.Available() == {3};
    EmptyDouble(fs.disk, inode.blocks);
    hide Tree, Marked, Bit, Free, Missing, Outside, Ptr, Grows, SameData;
    ghost var lost;
    ok, lost := fs.SetPtr(inode, 14, 2);
    assert lost == 3;
    LostBreaks(fs.disk, inode.blocks, 2, 4, 3, 0);
  }

  lemma {:induction false} EmptyPtr(disk: Disk, roots: seq<nat>, p: Place)
    requires forall k :: 0 <= k < |roots| ==> roots[k] == 0
    ensures Ptr(disk, roots, p) == 0
  {
    if p.Child? {
      EmptyPtr(disk, roots, p.up);
    }
  }

  lemma EmptyTree(disk: Disk, roots: seq<nat>, ptrs: nat, count: nat)
    requires |roots| == 15 && (forall k :: 0 <= k < 15 ==> roots[k] == 0) && Stored(disk, ptrs, count)
    ensures Tree(disk, roots, ptrs, count) && forall p :: Ptr(disk, roots, p) == 0
  {
    forall p ensures Ptr(disk, roots, p) == 0 { EmptyPtr(disk, roots, p); }
  }

  lemma EmptyDouble(disk: Disk, roots: seq<nat>)
    requires |roots| == 15 && roots[13] == 0 && forall p :: Ptr(disk, roots, p) == 0
    ensures InFile(14, 2) && MissingFor(disk, roots, 14, 2) == 2
  {
    var js := WordsOf(14, 2);
    assert |js| == 2 && |js[1..]| == 1 && js[1..][1..] == [];
  }

  lemma FifteenSlots(disk: Disk, roots: seq<nat>, ptrs: nat, count: nat)
    requires Tree(disk, roots, ptrs, count)
    ensures |roots| == 15
  {
  }

  lemma SlotPtr(disk: Disk, roots: seq<nat>, k: nat)
    requires k < |roots|
    ensures Ptr(disk, roots, Slot(k)) == roots[k]
  {
  }

  lemma SlotFacts(disk: Disk, roots: seq<nat>, k: nat, js: seq<nat>, ptrs: nat)
    requires 12 <= k < 15 && |js| == k - 11 && Words(js, ptrs) && k < |roots|
    ensures Ptr(disk, roots, Slot(k)) == roots[k] && Extend(Slot(k), js) != Slot(k)
  {
    ExtendPlace(Slot(k), js, ptrs);
  }

  lemma SlotStep(disk: Disk, roots: seq<nat>, ptrs: nat, count: nat, groups: seq<Group>, perGroup: nat, k: nat, y: nat)
    requires perGroup > 0 && Counted(groups, perGroup) && Tree(disk, roots, ptrs, count) && Marked(disk, roots, ptrs, groups, perGroup)
    requires k < 12 && 0 < y < count && Free(disk, roots, ptrs, y) && Bit(groups, perGroup, y)
    ensures Tree(disk, roots[k := y], ptrs, count) && Marked(disk, roots[k := y], ptrs, groups, perGroup)
    ensures Sets(disk, roots, disk, roots[k := y], ptrs, Slot(k), y)
  {
    forall q | IsPlace(q, ptrs) ensures Ptr(disk, roots[k := y], q) == if q == Slot(k) then y else Ptr(disk, roots, q) {
      SetSlot(disk, roots, ptrs, k, y, q);
    }
    SetsTree(disk, roots, disk, roots[k := y], ptrs, count, Slot(k), y);
    SetsMarked(disk, roots, disk, roots[k := y], ptrs, Slot(k), y, groups, groups, perGroup);
  }

  lemma RootStep(disk: Disk, roots: seq<nat>, ptrs: nat, count: nat, groups: seq<Group>, groups': seq<Group>, perGroup: nat,
                 k: nat, n: nat, phys: nat)
    requires perGroup > 0 && Counted(groups, perGroup) && Counted(groups', perGroup)
    requires Tree(disk, roots, ptrs, count) && Marked(disk, roots, ptrs, groups, perGroup)
    requires 12 <= k < 15 && roots[k] == 0 && 0 < n < count && !Bit(groups, perGroup, n)
    requires forall b: nat :: Bit(groups', perGroup, b) <==> b == n || Bit(groups, perGroup, b)
    requires Free(disk, roots, ptrs, phys) && Bit(groups, perGroup, phys)
    ensures var disk', roots' := disk[n := Zeros(ptrs)], roots[k := n];
            && Tree(disk', roots', ptrs, count) && Marked(disk', roots', ptrs, groups', perGroup)
            && Sets(disk, roots, disk', roots', ptrs, Slot(k), n) && Free(disk', roots', ptrs, phys)
  {
    var disk', roots' := disk[n := Zeros(ptrs)], roots[k := n];
    UnmarkedFree(disk, roots, ptrs, groups, perGroup, n);
    forall q | IsPlace(q, ptrs) ensures Ptr(disk', roots', q) == if q == Slot(k) then n else Ptr(disk, roots, q) {
      LinkSlot(disk, roots, ptrs, k, n, q);
    }
    SetsTree(disk, roots, disk', roots', ptrs, count, Slot(k), n);
    SetsMarked(disk, roots, disk', roots', ptrs, Slot(k), n, groups, groups', perGroup);
    hide Ptr, Tree, Marked, Bit, Counted;
  }

  lemma EntryFacts(disk: Disk, roots: seq<nat>, ptrs: nat, count: nat, a: Place, j: nat)
    requires Tree(disk, roots, ptrs, count) && IsPlace(a, ptrs) && Level(a) > 0 && j < ptrs && Ptr(disk, roots, a) != 0
    ensures IsPlace(Child(a, j), ptrs) && Level(Child(a, j)) == Level(a) - 1
    ensures var b := Ptr(disk, roots, a); b < count && b in disk && |disk[b]| == ptrs && Ptr(disk, roots, Child(a, j)) == disk[b][j]
  {
  }

  lemma WriteStep(disk: Disk, roots: seq<nat>, ptrs: nat, count: nat, groups: seq<Group>, perGroup: nat, a: Place, j: nat, y: nat)
    requires perGroup > 0 && Counted(groups, perGroup) && Tree(disk, roots, ptrs, count) && Marked(disk, roots, ptrs, groups, perGroup)
    requires IsPlace(a, ptrs) && Level(a) == 1 && j < ptrs && Ptr(disk, roots, a) != 0
    requires 0 < y < count && Free(disk, roots, ptrs, y) && Bit(groups, perGroup, y)
    ensures var b := Ptr(disk, roots, a);
            b in disk && |disk[b]| == ptrs && Tree(PutWord(disk, b, j, y), roots, ptrs, count)
            && Marked(PutWord(disk, b, j, y), roots, ptrs, groups, perGroup)
            && Sets(disk, roots, PutWord(disk, b, j, y), roots, ptrs, Child(a, j), y)
  {
    var b := Ptr(disk, roots, a);
    assert b < count;
    var disk' := PutWord(disk, b, j, y);
    forall q | IsPlace(q, ptrs) ensures Ptr(disk', roots, q) == if q == Child(a, j) then y else Ptr(disk, roots, q) {
      SetWord(disk, roots, ptrs, a, j, y, q);
    }
    SetsTree(disk, roots, disk', roots, ptrs, count, Child(a, j), y);
    SetsMarked(disk, roots, disk', roots, ptrs, Child(a, j), y, groups, groups, perGroup);
  }

  lemma LinkStep(disk: Disk, roots: seq<nat>, ptrs: nat, count: nat, groups: seq<Group>, groups': seq<Group>, perGroup: nat,
                 a: Place, j: nat, n: nat, phys: nat)
    requires perGroup > 0 && Counted(groups, perGroup) && Counted(groups', perGroup)
    requires Tree(disk, roots, ptrs, count) && Marked(disk, roots, ptrs, groups, perGroup)
    requires IsPlace(a, ptrs) && Level(a) > 1 && j < ptrs && Ptr(disk, roots, a) != 0 && Ptr(disk, roots, Child(a, j)) == 0
    requires 0 < n < count && !Bit(groups, perGroup, n)
    requires forall b: nat :: Bit(groups', perGroup, b) <==> b == n || Bit(groups, perGroup, b)
    requires Free(disk, roots, ptrs, phys) && Bit(groups, perGroup, phys)
    ensures var b := Ptr(disk, roots, a);
            b in disk && |disk[b]| == ptrs &&
            var disk' := PutWord(disk, b, j, n)[n := Zeros(ptrs)];
            && Tree(disk', roots, ptrs, count) && Marked(disk', roots, ptrs, groups', perGroup)
            && Sets(disk, roots, disk', roots, ptrs, Child(a, j), n) && Ptr(disk', roots, Child(a, j)) == n
            && Free(disk', roots, ptrs, phys)
  {
    var b := Ptr(disk, roots, a);
    assert b < count;
    var disk' := PutWord(disk, b, j, n)[n := Zeros(ptrs)];
    UnmarkedFree(disk, roots, ptrs, groups, perGroup, n);
    forall q | IsPlace(q, ptrs) ensures Ptr(disk', roots, q) == if q == Child(a, j) then n else Ptr(disk, roots, q) {
      LinkWord(disk, roots, ptrs, a, j, n, q);
    }
    SetsTree(disk, roots, disk', roots, ptrs, count, Child(a, j), n);
    SetsMarked(disk, roots, disk', roots, ptrs, Child(a, j), n, groups, groups', perGroup);
    assert IsPlace(Child(a, j), ptrs);
    hide Ptr, Tree, Marked, Bit, Counted;
  }

  lemma BelowNotSelf(a: Place, js: seq<nat>, ptrs: nat)
    requires IsPlace(a, ptrs) && Level(a) == |js| > 1 && Words(js, ptrs)
    ensures Extend(a, js) == Extend(Child(a, js[0]), js[1..]) != Child(a, js[0]) && Level(Child(a, js[0])) > 0
  {
    ExtendPlace(a, js, ptrs);
  }

  lemma OutsideNot(disk: Disk, roots: seq<nat>, ptrs: nat, a: Place, b: nat)
    requires Outside(disk, roots, ptrs, b) && IsPlace(a, ptrs) && Level(a) > 0
    ensures Ptr(disk, roots, a) != b
  {
  }

  lemma OutsideAfter(disk: Disk, roots: seq<nat>, disk': Disk, roots': seq<nat>, ptrs: nat, p: Place, n: nat, b: nat)
    requires Sets(disk, roots, disk', roots', ptrs, p, n) && Outside(disk, roots, ptrs, b) && b != n
    ensures Outside(disk', roots', ptrs, b)
  {
    hide Ptr;
  }

  lemma DerefStep(disk: Disk, b: nat, j: nat, js: seq<nat>)
    requires |js| > 0
    ensures var r := Deref(disk, b, [j]);
            Deref(disk, b, [j] + js) == if r.Found? && r.block != 0 then Deref(disk, r.block, js) else r
  {
    assert ([j] + js)[1..] == js;
  }
}
