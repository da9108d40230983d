/** The block pointers of an ext2 inode (kernel/vfs/ext2.c): twelve direct slots and three slots with one, two and
    three levels of index blocks, as a tree of places that hold block numbers. */
module Ext2Tree {
  import opened Division

  /** The blocks of the volume, each read as its 32-bit words. */
  type Disk = map<nat, seq<nat>>

  /** A pointer of the tree: a slot of `i_block`, or word `j` of the index block another pointer names. */
  datatype Place = Slot(k: nat) | Child(up: Place, j: nat)

  /** Levels of index blocks at and below the block a place names; 0 is a data block. */
  function Level(p: Place): int {
    match p
    case Slot(k) => if k < 12 then 0 else k - 11
    case Child(q, _) => Level(q) - 1
  }

  predicate IsPlace(p: Place, ptrs: nat) {
    match p
    case Slot(k) => k < 15
    case Child(q, j) => IsPlace(q, ptrs) && Level(q) > 0 && j < ptrs
  }

  /** The block number stored at a place; 0 below a missing index block. */
  function Ptr(disk: Disk, roots: seq<nat>, p: Place): nat {
    match p
    case Slot(k) => if k < |roots| then roots[k] else 0
    case Child(q, j) =>
      var b := Ptr(disk, roots, q);
      if b != 0 && b in disk && j < |disk[b]| then disk[b][j] else 0
  }

  ghost predicate Stored(disk: Disk, ptrs: nat, count: nat) {
    forall b :: 0 < b < count ==> b in disk && |disk[b]| == ptrs
  }

  /** Every block is named by at most one place. */
  ghost predicate Once(disk: Disk, roots: seq<nat>, ptrs: nat) {
    forall p, q :: IsPlace(p, ptrs) && IsPlace(q, ptrs) && Ptr(disk, roots, p) == Ptr(disk, roots, q) != 0 ==> p == q
  }

  ghost predicate InRange(disk: Disk, roots: seq<nat>, ptrs: nat, count: nat) {
    forall p :: IsPlace(p, ptrs) ==> Ptr(disk, roots, p) < count || Ptr(disk, roots, p) == 0
  }

  ghost predicate Tree(disk: Disk, roots: seq<nat>, ptrs: nat, count: nat) {
    |roots| == 15 && Stored(disk, ptrs, count) && InRange(disk, roots, ptrs, count) && Once(disk, roots, ptrs)
  }

  /** No place names block `b`. */
  ghost predicate Free(disk: Disk, roots: seq<nat>, ptrs: nat, b: nat) {
    forall p :: IsPlace(p, ptrs) ==> Ptr(disk, roots, p) != b
  }

  // ----- one pointer is set -----

  /** Place `p` now names `y`; every other place names what it did. */
  ghost predicate Sets(disk: Disk, roots: seq<nat>, disk': Disk, roots': seq<nat>, ptrs: nat, p: Place, y: nat) {
    forall q :: IsPlace(q, ptrs) ==> Ptr(disk', roots', q) == if q == p then y else Ptr(disk, roots, q)
  }

  lemma SetsTree(disk: Disk, roots: seq<nat>, disk': Disk, roots': seq<nat>, ptrs: nat, count: nat, p: Place, y: nat)
    requires Tree(disk, roots, ptrs, count) && Sets(disk, roots, disk', roots', ptrs, p, y)
    requires |roots'| == 15 && Stored(disk', ptrs, count) && 0 < y < count && Free(disk, roots, ptrs, y)
    ensures Tree(disk', roots', ptrs, count)
  {
    hide Stored, IsPlace, Ptr;
  }

  function Zeros(ptrs: nat): seq<nat> {
    seq(ptrs, _ => 0)
  }

  function PutWord(disk: Disk, b: nat, j: nat, y: nat): Disk
    requires b in disk && j < |disk[b]|
  {
    var words: seq<nat> := disk[b][j := y];
    disk[b := words]
  }

  /** A direct slot. */
  lemma {:induction false} SetSlot(disk: Disk, roots: seq<nat>, ptrs: nat, k: nat, y: nat, q: Place)
    requires |roots| == 15 && k < 12 && IsPlace(q, ptrs)
    ensures Ptr(disk, roots[k := y], q) == if q == Slot(k) then y else Ptr(disk, roots, q)
  {
    if q.Child? {
      SetSlot(disk, roots, ptrs, k, y, q.up);
    }
  }

  /** A missing index block below a slot. */
  lemma {:induction false} LinkSlot(disk: Disk, roots: seq<nat>, ptrs: nat, k: nat, y: nat, q: Place)
    requires |roots| == 15 && 12 <= k < 15 && roots[k] == 0 && y != 0 && Free(disk, roots, ptrs, y) && IsPlace(q, ptrs)
    ensures Ptr(disk[y := Zeros(ptrs)], roots[k := y], q) == if q == Slot(k) then y else Ptr(disk, roots, q)
  {
    if q.Child? {
      LinkSlot(disk, roots, ptrs, k, y, q.up);
    }
  }

  /** The last pointer, which names a data block. */
  lemma {:induction false} SetWord(disk: Disk, roots: seq<nat>, ptrs: nat, a: Place, j: nat, y: nat, q: Place)
    requires IsPlace(a, ptrs) && Level(a) == 1 && IsPlace(q, ptrs) && Once(disk, roots, ptrs)
    requires Ptr(disk, roots, a) != 0 && Ptr(disk, roots, a) in disk && j < |disk[Ptr(disk, roots, a)]|
    ensures var b := Ptr(disk, roots, a);
            Ptr(PutWord(disk, b, j, y), roots, q) == if q == Child(a, j) then y else Ptr(disk, roots, q)
  {
    if q.Child? {
      SetWord(disk, roots, ptrs, a, j, y, q.up);
    }
  }

  /** A missing index block below another. */
  lemma {:induction false} LinkWord(disk: Disk, roots: seq<nat>, ptrs: nat, a: Place, j: nat, y: nat, q: Place)
    requires IsPlace(a, ptrs) && Level(a) > 1 && IsPlace(q, ptrs) && Once(disk, roots, ptrs) && y != 0 && Free(disk, roots, ptrs, y)
    requires Ptr(disk, roots, a) != 0 && Ptr(disk, roots, a) in disk && j < |disk[Ptr(disk, roots, a)]|
    requires Ptr(disk, roots, Child(a, j)) == 0
    ensures var b := Ptr(disk, roots, a);
            Ptr(PutWord(disk, b, j, y)[y := Zeros(ptrs)], roots, q) == if q == Child(a, j) then y else Ptr(disk, roots, q)
  {
    if q.Child? {
      LinkWord(disk, roots, ptrs, a, j, y, q.up);
    }
  }

  // ----- file block numbers and data places -----

  // Rows of `d`, as functions of their own so that proofs need no multiplication.

  function Times(m: nat, d: nat): nat { m * d }

  function Row(n: nat, d: nat): nat
    requires d > 0
  {
    n / d
  }

  function Col(n: nat, d: nat): nat
    requires d > 0
  {
    n % d
  }

  function Flat(i: nat, d: nat, j: nat): nat { i * d + j }

  lemma RowCol(n: nat, d: nat, m: nat)
    requires d > 0 && n < Times(m, d)
    ensures Row(n, d) < m && Col(n, d) < d && Flat(Row(n, d), d, Col(n, d)) == n
  {
    DivUnder(n, d, m);
  }

  lemma FlatOf(i: nat, d: nat, j: nat, m: nat)
    requires i < m && j < d
    ensures Flat(i, d, j) < Times(m, d) && Row(Flat(i, d, j), d) == i && Col(Flat(i, d, j), d) == j
  {
    MulUnder(i, j, d, m);
    DivUnique(i * d + j, d, i, j);
  }

  lemma MulUnder(i: nat, j: nat, d: nat, m: nat)
    requires i < m && j < d
    ensures i * d + j < m * d
  {
    assert (i + 1) * d <= m * d;
  }

  lemma DivUnder(x: nat, d: nat, m: nat)
    requires d > 0 && x < m * d
    ensures x / d < m && x == x / d * d + x % d
  {
    var k := x / d;
    assert k >= m ==> k * d >= m * d;
  }

  /** Blocks two and three levels of index blocks can hold. */
  function Square(ptrs: nat): nat {
    Times(ptrs, ptrs)
  }

  function Cube(ptrs: nat): nat {
    Times(ptrs, Square(ptrs))
  }

  lemma SquarePositive(ptrs: nat)
    requires ptrs > 0
    ensures Square(ptrs) > 0
  {
  }

  predicate InFile(index: nat, ptrs: nat) {
    index < 12 + ptrs + Square(ptrs) + Cube(ptrs)
  }

  /** Place `i` of the square two levels below `a`. */
  function Pair(a: Place, i: nat, ptrs: nat): Place
    requires ptrs > 0
  {
    Child(Child(a, Row(i, ptrs)), Col(i, ptrs))
  }

  /** Where the pointer of a file block is kept. */
  function PlaceOf(index: nat, ptrs: nat): Place
    requires ptrs > 0
  {
    if index < 12 then Slot(index)
    else if index - 12 < ptrs then Child(Slot(12), index - 12)
    else
      var i := index - 12 - ptrs;
      var square := Square(ptrs);
      if i < square then Pair(Slot(13), i, ptrs)
      else
        SquarePositive(ptrs);
        var i := i - square;
        Pair(Child(Slot(14), Row(i, square)), Col(i, square), ptrs)
  }

  /** The file block number of a data place. */
  function IndexOf(p: Place, ptrs: nat): nat {
    match p
    case Slot(k) => k
    case Child(Slot(_), i) => 12 + i
    case Child(Child(Slot(_), i), j) => 12 + ptrs + Flat(i, ptrs, j)
    case Child(Child(Child(_, h), i), j) => 12 + ptrs + Square(ptrs) + Flat(h, Square(ptrs), Flat(i, ptrs, j))
  }

  /** The pointer of every file block is a data place, and no two file blocks share one. */
  lemma PlaceOfIndex(index: nat, ptrs: nat)
    requires ptrs > 0 && InFile(index, ptrs)
    ensures IsPlace(PlaceOf(index, ptrs), ptrs) && Level(PlaceOf(index, ptrs)) == 0
    ensures IndexOf(PlaceOf(index, ptrs), ptrs) == index
  {
    hide Times, Row, Col, Flat;
    if 12 + ptrs <= index < 12 + ptrs + Square(ptrs) {
      PairOf(Slot(13), index - 12 - ptrs, ptrs);
    } else if 12 + ptrs + Square(ptrs) <= index {
      SquarePositive(ptrs);
      var i := index - 12 - ptrs - Square(ptrs);
      RowCol(i, Square(ptrs), ptrs);
      PairOf(Child(Slot(14), Row(i, Square(ptrs))), Col(i, Square(ptrs)), ptrs);
    }
  }

  lemma PairOf(a: Place, i: nat, ptrs: nat)
    requires ptrs > 0 && i < Square(ptrs) && IsPlace(a, ptrs) && Level(a) == 2
    ensures IsPlace(Pair(a, i, ptrs), ptrs) && Level(Pair(a, i, ptrs)) == 0 && Flat(Row(i, ptrs), ptrs, Col(i, ptrs)) == i
  {
    RowCol(i, ptrs, ptrs);
  }

  /** Every data place holds the pointer of a file block. */
  lemma IndexOfPlace(p: Place, ptrs: nat)
    requires ptrs > 0 && IsPlace(p, ptrs) && Level(p) == 0
    ensures InFile(IndexOf(p, ptrs), ptrs) && PlaceOf(IndexOf(p, ptrs), ptrs) == p
  {
    hide Times, Row, Col, Flat;
    match p
    case Slot(k) =>
    case Child(Slot(k), i) =>
    case Child(Child(Slot(k), i), j) =>
      assert IsPlace(Child(Slot(k), i), ptrs);
      FlatOf(i, ptrs, j, ptrs);
    case Child(Child(Child(q, h), i), j) =>
      assert IsPlace(Child(Child(q, h), i), ptrs) && IsPlace(Child(q, h), ptrs) && IsPlace(q, ptrs);
      assert Level(Child(Child(q, h), i)) == 1 && Level(Child(q, h)) == 2 && Level(q) == 3;
      TopOnly(q, ptrs);
      FlatOf(i, ptrs, j, ptrs);
      FlatOf(h, Square(ptrs), Flat(i, ptrs, j), ptrs);
  }

  lemma {:induction false} TopOnly(q: Place, ptrs: nat)
    requires IsPlace(q, ptrs)
    ensures Level(q) <= 3 && (Level(q) == 3 ==> q == Slot(14))
  {
    if q.Child? {
      TopOnly(q.up, ptrs);
    }
  }
}
