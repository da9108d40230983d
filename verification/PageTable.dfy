/** Four-level page tables (kernel/arch/x86_64/mmu.c; 4-level paging, section 4.5 of Intel SDM volume 3A):
    the tables as frames of 512 entries, the translation they define, and what single edits do to it. */
module PageTable {

  /** The permission bits of an entry; `rest` stands for the bits no code here looks at. */
  datatype Perm = Perm(writable: bool, user: bool, rest: nat)

  datatype Entry = Entry(present: bool, huge: bool, frame: nat, perm: Perm)

  const Zero := Entry(false, false, 0, Perm(false, false, 0))

  type Table = seq<Entry>

  /** The tables of one map, by frame. */
  type Tables = map<nat, Table>

  /** The four table indices of a page address, highest level first. */
  predicate IsPage(w: seq<nat>) {
    |w| == 4 && forall i :: 0 <= i < 4 ==> w[i] < 512
  }

  /** What a page address translates to: a frame and the permissions all entries on the way grant. */
  datatype Mapping = None | Some(frame: nat, perm: Perm)

  /** An entry that leads to a further table. */
  predicate Points(e: Entry, depth: nat) {
    e.present && depth < 3 && !(depth == 2 && e.huge)
  }

  /** What an entry that leads to no further table makes of the addresses through it. */
  function Leaf(e: Entry, depth: nat, w: seq<nat>): Mapping
    requires IsPage(w)
  {
    if !e.present || depth < 2 then None
    else if depth == 2 then Some(e.frame - e.frame % 512 + w[3], e.perm)
    else Some(e.frame, e.perm)
  }

  /** What is left of a mapping below an entry: writable and user must be granted at every level. */
  function Restrict(p: Perm, m: Mapping): Mapping {
    match m
    case None => None
    case Some(frame, perm) => Some(frame, perm.(writable := p.writable && perm.writable, user := p.user && perm.user))
  }

  /** The walk the processor makes, from table `f` at the given depth. */
  ghost function Walk(t: Tables, f: nat, depth: nat, w: seq<nat>): Mapping
    requires IsPage(w) && depth <= 3
    decreases 3 - depth
  {
    if f !in t || |t[f]| != 512 then None
    else
      var e := t[f][w[depth]];
      if Points(e, depth) then Restrict(e.perm, Walk(t, e.frame, depth + 1, w)) else Leaf(e, depth, w)
  }

  // ----- places of tables -----

  /** Where a table sits: the entries on the way from the root to it. */
  datatype Path = Root | Down(up: Path, index: nat)

  function Depth(p: Path): nat {
    match p
    case Root => 0
    case Down(q, _) => Depth(q) + 1
  }

  function Prefix(w: seq<nat>, d: nat): (p: Path)
    requires d <= |w|
    ensures Depth(p) == d
  {
    if d == 0 then Root else Down(Prefix(w, d - 1), w[d - 1])
  }

  /** The walk of `w` visits the table at `p`. */
  predicate OnWay(w: seq<nat>, p: Path) {
    Depth(p) < |w| && p == Prefix(w, Depth(p))
  }

  /** The walk of `w` reads entry `i` of the table at `p`. */
  predicate Through(w: seq<nat>, p: Path, i: nat) {
    OnWay(w, p) && w[Depth(p)] == i
  }

  // ----- well-formed tables -----

  type Places = map<nat, Path>

  ghost predicate Located(t: Tables, places: Places, root: nat) {
    && t.Keys == places.Keys
    && root in t && places[root] == Root
    && (forall f :: f in t ==> |t[f]| == 512 && Depth(places[f]) <= 3)
    && (forall f, g :: f in t && g in t && places[f] == places[g] ==> f == g)
  }

  /** Entry `i` of table `f` points to table `c`. */
  ghost predicate PointsTo(t: Tables, places: Places, f: nat, i: nat, c: nat) {
    f in t && f in places && i < |t[f]| && Points(t[f][i], Depth(places[f])) && t[f][i].frame == c
  }

  /** Every entry that points to a table points to the one that belongs there. */
  ghost predicate Linked(t: Tables, places: Places) {
    forall f, i, c :: PointsTo(t, places, f, i, c) ==> c in t && c in places && places[c] == Down(places[f], i)
  }

  ghost predicate Pointed(t: Tables, places: Places, c: nat) {
    exists f, i :: PointsTo(t, places, f, i, c)
  }

  /** Every table but the root is pointed to: no table is lost. */
  ghost predicate Owned(t: Tables, places: Places, root: nat) {
    forall c {:trigger Pointed(t, places, c)} :: c in t && c != root ==> Pointed(t, places, c)
  }

  /** Only page-directory entries are huge, a huge page starts on a 2 MiB boundary, and an entry that points to a
      table grants everything. */
  predicate EntryOk(e: Entry, depth: nat) {
    && (e.present && e.huge ==> depth == 2 && e.frame % 512 == 0)
    && (Points(e, depth) ==> e.perm.writable && e.perm.user)
  }

  ghost predicate EntriesOk(t: Tables, places: Places) {
    forall f, i :: f in t && f in places && 0 <= i < |t[f]| ==> EntryOk(t[f][i], Depth(places[f]))
  }

  ghost predicate WellFormed(t: Tables, places: Places, root: nat) {
    Located(t, places, root) && Linked(t, places) && Owned(t, places, root) && EntriesOk(t, places)
  }

  // ----- locality -----

  /** Two memories that agree on every entry on the way of `w` translate it alike. */
  lemma {:induction false} WalkAgrees(t: Tables, t': Tables, places: Places, root: nat, f: nat, depth: nat, w: seq<nat>)
    requires Located(t, places, root) && Linked(t, places) && IsPage(w) && depth <= 3
    requires f in t && places[f] == Prefix(w, depth)
    requires forall g :: g in t && OnWay(w, places[g]) ==>
      g in t' && |t'[g]| == 512 && t'[g][w[Depth(places[g])]] == t[g][w[Depth(places[g])]]
    ensures Walk(t', f, depth, w) == Walk(t, f, depth, w)
    decreases 3 - depth
  {
    var e := t[f][w[depth]];
    assert OnWay(w, places[f]);
    if Points(e, depth) {
      assert PointsTo(t, places, f, w[depth], e.frame);
      WalkAgrees(t, t', places, root, e.frame, depth + 1, w);
    }
  }

  /** The walk of `w` reaches the table on its way at every depth. */
  lemma {:induction false} WalkFrom(t: Tables, places: Places, root: nat, f: nat, w: seq<nat>)
    requires WellFormed(t, places, root) && IsPage(w) && f in t && OnWay(w, places[f])
    ensures Walk(t, root, 0, w) == Walk(t, f, Depth(places[f]), w)
    decreases Depth(places[f])
  {
    if places[f] != Root {
      assert Pointed(t, places, f);
      var g: nat, i: nat :| PointsTo(t, places, g, i, f);
      assert places[f] == Down(places[g], i) && EntryOk(t[g][i], Depth(places[g]));
      WalkFrom(t, places, root, g, w);
    }
  }

  // ----- rewriting an entry -----

  function Put(t: Tables, f: nat, i: nat, e: Entry): Tables
    requires f in t && i < |t[f]|
  {
    t[f := t[f][i := e]]
  }

  /** An edit that changes no pointer to a table keeps the tables linked. */
  lemma SamePointers(t: Tables, t': Tables, places: Places, root: nat)
    requires Located(t, places, root) && Linked(t, places) && Owned(t, places, root)
    requires t'.Keys == t.Keys && forall f :: f in t' ==> |t'[f]| == 512
    requires forall f, i, c :: PointsTo(t', places, f, i, c) <==> PointsTo(t, places, f, i, c)
    ensures Located(t', places, root) && Linked(t', places) && Owned(t', places, root)
  {
    hide PointsTo;
    forall c | c in t' && c != root ensures Pointed(t', places, c) {
      assert Pointed(t, places, c);
      var f: nat, i: nat :| PointsTo(t, places, f, i, c);
      assert PointsTo(t', places, f, i, c);
    }
  }

  /** An entry may be replaced by one that points to the same table, or to none if it did not. */
  predicate Like(e: Entry, e': Entry, depth: nat) {
    Points(e', depth) == Points(e, depth) && (Points(e, depth) ==> e'.frame == e.frame)
  }

  lemma PutWellFormed(t: Tables, places: Places, root: nat, f: nat, i: nat, e: Entry)
    requires WellFormed(t, places, root) && f in t && i < 512
    requires Like(t[f][i], e, Depth(places[f])) && EntryOk(e, Depth(places[f]))
    ensures WellFormed(Put(t, f, i, e), places, root)
  {
    hide Linked, Owned;
    SamePointers(t, Put(t, f, i, e), places, root);
  }

  lemma PutElsewhere(t: Tables, places: Places, root: nat, f: nat, i: nat, e: Entry, w: seq<nat>)
    requires WellFormed(t, places, root) && f in t && i < 512 && IsPage(w) && !Through(w, places[f], i)
    ensures Walk(Put(t, f, i, e), root, 0, w) == Walk(t, root, 0, w)
  {
    hide Owned, EntriesOk;
    WalkAgrees(t, Put(t, f, i, e), places, root, root, 0, w);
  }

  lemma PutLeaf(t: Tables, places: Places, root: nat, f: nat, i: nat, e: Entry, w: seq<nat>)
    requires WellFormed(t, places, root) && f in t && i < 512 && IsPage(w) && Through(w, places[f], i)
    requires !Points(t[f][i], Depth(places[f])) && !Points(e, Depth(places[f])) && EntryOk(e, Depth(places[f]))
    ensures Walk(t, root, 0, w) == Leaf(t[f][i], Depth(places[f]), w)
    ensures Walk(Put(t, f, i, e), root, 0, w) == Leaf(e, Depth(places[f]), w)
  {
    PutWellFormed(t, places, root, f, i, e);
    hide Owned, EntriesOk, Linked;
    WalkFrom(t, places, root, f, w);
    WalkFrom(Put(t, f, i, e), places, root, f, w);
  }

  lemma {:induction false} PutPointer(t: Tables, places: Places, root: nat, g: nat, f: nat, i: nat, e: Entry, w: seq<nat>)
    requires Located(t, places, root) && Linked(t, places) && EntriesOk(t, places) && f in t && i < 512
    requires Points(t[f][i], Depth(places[f])) && Like(t[f][i], e, Depth(places[f])) && EntryOk(e, Depth(places[f]))
    requires IsPage(w) && g in t
    ensures Walk(Put(t, f, i, e), g, Depth(places[g]), w) == Walk(t, g, Depth(places[g]), w)
    decreases 3 - Depth(places[g])
  {
    var depth := Depth(places[g]);
    var x := t[g][w[depth]];
    if Points(x, depth) {
      assert PointsTo(t, places, g, w[depth], x.frame);
      PutPointer(t, places, root, x.frame, f, i, e, w);
    }
  }

  // ----- linking a table -----

  /** A table whose entries point to no further tables. */
  ghost predicate LeafTable(tab: Table, depth: nat) {
    |tab| == 512 && forall j :: 0 <= j < 512 ==> !Points(tab[j], depth) && EntryOk(tab[j], depth)
  }

  /** The new table `n` with contents `tab` is hung below entry `i` of `f`. */
  function Link(t: Tables, f: nat, i: nat, n: nat, tab: Table, e: Entry): Tables
    requires f in t && i < |t[f]|
  {
    Put(t, f, i, e)[n := tab]
  }

  lemma PlaceFree(t: Tables, places: Places, root: nat, f: nat, i: nat, g: nat)
    requires Located(t, places, root) && Linked(t, places) && Owned(t, places, root) && f in t && g in t
    requires forall c :: !PointsTo(t, places, f, i, c)
    ensures places[g] != Down(places[f], i)
  {
    hide PointsTo;
    if g != root {
      var h: nat, j: nat :| PointsTo(t, places, h, j, g) && h in t by { PointedFrom(t, places, root, g); }
    }
  }

  lemma PointedFrom(t: Tables, places: Places, root: nat, g: nat)
    requires Owned(t, places, root) && g in t && g != root
    ensures exists h, j :: PointsTo(t, places, h, j, g) && h in t
  {
    assert Pointed(t, places, g);
    var h: nat, j: nat :| PointsTo(t, places, h, j, g);
  }

  /** A table is hung below entry `i` of `f` at a place that was free. */
  ghost predicate Grows(t: Tables, places: Places, t': Tables, places': Places, f: nat, i: nat, n: nat) {
    && f in t && n !in t && t.Keys == places.Keys && t'.Keys == t.Keys + {n} && places' == places[n := Down(places[f], i)]
    && (forall g, j, c :: PointsTo(t', places', g, j, c) <==> PointsTo(t, places, g, j, c) || (g == f && j == i && c == n))
  }

  lemma GrowOwned(t: Tables, places: Places, t': Tables, places': Places, root: nat, f: nat, i: nat, n: nat)
    requires Owned(t, places, root) && Grows(t, places, t', places', f, i, n)
    ensures Owned(t', places', root)
  {
    hide PointsTo;
    forall c | c in t' && c != root ensures Pointed(t', places', c) {
      if c == n {
        assert PointsTo(t', places', f, i, n);
      } else {
        assert Pointed(t, places, c);
        var g: nat, j: nat :| PointsTo(t, places, g, j, c);
        assert PointsTo(t', places', g, j, c);
      }
    }
  }

  lemma GrowLinked(t: Tables, places: Places, t': Tables, places': Places, f: nat, i: nat, n: nat)
    requires Linked(t, places) && Grows(t, places, t', places', f, i, n)
    requires forall g, j, c :: PointsTo(t, places, g, j, c) ==> g in t
    ensures Linked(t', places')
  {
    hide PointsTo;
  }

  lemma LinkWellFormed(t: Tables, places: Places, root: nat, f: nat, i: nat, n: nat, tab: Table, e: Entry)
    requires WellFormed(t, places, root) && f in t && i < 512 && n !in t && Depth(places[f]) < 3
    requires !Points(t[f][i], Depth(places[f])) && LeafTable(tab, Depth(places[f]) + 1)
    requires e.present && !e.huge && e.frame == n && e.perm.writable && e.perm.user
    ensures WellFormed(Link(t, f, i, n, tab, e), places[n := Down(places[f], i)], root)
  {
    hide Linked, Owned;
    var t', places' := Link(t, f, i, n, tab, e), places[n := Down(places[f], i)];
    forall g | g in t ensures places[g] != Down(places[f], i) { PlaceFree(t, places, root, f, i, g); }
    LinkGrows(t, places, root, f, i, n, tab, e);
    hide EntriesOk, PointsTo;
    GrowLinked(t, places, t', places', f, i, n);
    GrowOwned(t, places, t', places', root, f, i, n);
  }

  lemma LinkGrows(t: Tables, places: Places, root: nat, f: nat, i: nat, n: nat, tab: Table, e: Entry)
    requires Located(t, places, root) && EntriesOk(t, places) && f in t && i < 512 && n !in t && Depth(places[f]) < 3
    requires !Points(t[f][i], Depth(places[f])) && LeafTable(tab, Depth(places[f]) + 1)
    requires e.present && !e.huge && e.frame == n && e.perm.writable && e.perm.user
    ensures var t', places' := Link(t, f, i, n, tab, e), places[n := Down(places[f], i)];
            Grows(t, places, t', places', f, i, n) && EntriesOk(t', places')
    ensures forall g, j, c :: PointsTo(t, places, g, j, c) ==> g in t
  {
  }

  /** Linking a table changes the translation only below it. */
  lemma LinkWalk(t: Tables, places: Places, root: nat, f: nat, i: nat, n: nat, tab: Table, e: Entry, w: seq<nat>)
    requires WellFormed(t, places, root) && f in t && i < 512 && n !in t && Depth(places[f]) < 3 && IsPage(w)
    requires !Points(t[f][i], Depth(places[f])) && LeafTable(tab, Depth(places[f]) + 1)
    requires e.present && !e.huge && e.frame == n && e.perm.writable && e.perm.user
    ensures Walk(Link(t, f, i, n, tab, e), root, 0, w) ==
            if Through(w, places[f], i) then Leaf(tab[w[Depth(places[f]) + 1]], Depth(places[f]) + 1, w) else Walk(t, root, 0, w)
  {
    var t', places' := Link(t, f, i, n, tab, e), places[n := Down(places[f], i)];
    LinkWellFormed(t, places, root, f, i, n, tab, e);
    hide Linked, Owned, EntriesOk;
    if Through(w, places[f], i) {
      WalkFrom(t', places', root, n, w);
    } else {
      WalkAgrees(t, t', places, root, root, 0, w);
    }
  }

  // ----- unlinking a table -----

  /** The table `c` below entry `i` of `f` is given up; the entry becomes `e`. */
  function Unlink(t: Tables, f: nat, i: nat, c: nat, e: Entry): Tables
    requires f in t && i < |t[f]|
  {
    Put(t, f, i, e) - {c}
  }

  lemma ShrinkWellFormed(t: Tables, places: Places, t': Tables, places': Places, root: nat, f: nat, i: nat, c: nat)
    requires Located(t, places, root) && Linked(t, places) && Owned(t, places, root)
    requires f in t && c in t && places[c] == Down(places[f], i) && t'.Keys == t.Keys - {c} && places' == places - {c}
    requires forall g :: g in t' ==> |t'[g]| == 512
    requires forall g, j, x :: PointsTo(t', places', g, j, x) <==> PointsTo(t, places, g, j, x) && !(g == f && j == i)
    requires forall g, j, x :: PointsTo(t', places', g, j, x) ==> g in t'
    requires forall g, j, x :: PointsTo(t, places, g, j, x) ==> g in t
    requires forall x :: PointsTo(t, places, f, i, x) ==> x == c
    ensures c != root && Located(t', places', root) && Linked(t', places') && Owned(t', places', root)
  {
    hide PointsTo;
    forall x | x in t' && x != root ensures Pointed(t', places', x) {
      assert Pointed(t, places, x);
      var g: nat, j: nat :| PointsTo(t, places, g, j, x);
      assert PointsTo(t', places', g, j, x);
    }
  }

  lemma UnlinkWellFormed(t: Tables, places: Places, root: nat, f: nat, i: nat, c: nat, e: Entry)
    requires WellFormed(t, places, root) && PointsTo(t, places, f, i, c)
    requires !Points(e, Depth(places[f])) && EntryOk(e, Depth(places[f]))
    requires c in t && LeafTable(t[c], Depth(places[f]) + 1)
    ensures c != f && c != root && c in places && places[c] == Down(places[f], i)
    ensures WellFormed(Unlink(t, f, i, c, e), places - {c}, root)
  {
    assert c in places && places[c] == Down(places[f], i);
    hide Linked, Owned;
    var t', places' := Unlink(t, f, i, c, e), places - {c};
    ShrinkWellFormed(t, places, t', places', root, f, i, c);
  }

  lemma UnlinkWalk(t: Tables, places: Places, root: nat, f: nat, i: nat, c: nat, e: Entry, w: seq<nat>)
    requires WellFormed(t, places, root) && PointsTo(t, places, f, i, c) && IsPage(w)
    requires !Points(e, Depth(places[f])) && EntryOk(e, Depth(places[f]))
    requires c in t && LeafTable(t[c], Depth(places[f]) + 1)
    ensures Walk(t, root, 0, w) ==
            if Through(w, places[f], i) then Leaf(t[c][w[Depth(places[f]) + 1]], Depth(places[f]) + 1, w) else Walk(t, root, 0, w)
    ensures Walk(Unlink(t, f, i, c, e), root, 0, w) ==
            if Through(w, places[f], i) then Leaf(e, Depth(places[f]), w) else Walk(t, root, 0, w)
  {
    var t', places' := Unlink(t, f, i, c, e), places - {c};
    UnlinkWellFormed(t, places, root, f, i, c, e);
    hide Linked, Owned, EntriesOk;
    if Through(w, places[f], i) {
      WalkFrom(t, places, root, c, w);
      WalkFrom(t', places', root, f, w);
    } else {
      WalkAgrees(t, t', places, root, root, 0, w);
    }
  }
}
