/** The operations on one four-level map (kernel/arch/x86_64/mmu.c): each is proved to act on the flat map
    from page addresses to frames that the tables stand for. */
module PageMap {
  import opened Division
  import opened PageTable
  import opened Sequences

  /** The table indices of a page number, as GET_PML4_IDX to GET_PT_IDX take them from the address. */
  function Indices(page: nat): seq<nat> {
    [page / 134217728 % 512, page / 262144 % 512, page / 512 % 512, page % 512]
  }

  lemma ModSplit(x: nat, m: nat)
    requires m > 0
    ensures x % (512 * m) == 512 * (x / 512 % m) + x % 512
  {
    var q, r := x / 512 / m, x / 512 % m;
    assert x / 512 == m * q + r;
    assert x == q * (512 * m) + (512 * r + x % 512) by {
      assert x == 512 * (m * q + r) + x % 512;
      assert 512 * (m * q) == q * (512 * m);
    }
    assert r <= m - 1;
    DivUnique(x, 512 * m, q, 512 * r + x % 512);
  }

  lemma DigitsOf(p: nat)
    ensures p / 512 % 134217728 == 262144 * (p / 134217728 % 512) + 512 * (p / 262144 % 512) + p / 512 % 512
    ensures p % 68719476736 == 512 * (p / 512 % 134217728) + p % 512
  {
    ModSplit(p, 134217728);
    ModSplit(p / 512, 262144);
    ModSplit(p / 512 / 512, 512);
    assert p / 512 / 512 == p / 262144 && p / 512 / 512 / 512 == p / 134217728;
  }

  /** Every page of the 48-bit space has its own entry, and every 2 MiB region its own directory entry. */
  lemma IndicesExact(p: nat, q: nat)
    ensures IsPage(Indices(p))
    ensures Indices(p) == Indices(q) <==> p % 68719476736 == q % 68719476736
    ensures SameRegion(Indices(p), Indices(q)) <==> p / 512 % 134217728 == q / 512 % 134217728
  {
    var a, b := Indices(p), Indices(q);
    DigitsOf(p);
    DigitsOf(q);
    assert a == b <==> a[0] == b[0] && a[1] == b[1] && a[2] == b[2] && a[3] == b[3];
    Digits(a[0], a[1], a[2], a[3], b[0], b[1], b[2], b[3]);
  }

  lemma Digits(a: nat, b: nat, c: nat, d: nat, a': nat, b': nat, c': nat, d': nat)
    requires a < 512 && b < 512 && c < 512 && d < 512 && a' < 512 && b' < 512 && c' < 512 && d' < 512
    ensures 262144 * a + 512 * b + c == 262144 * a' + 512 * b' + c' <==> a == a' && b == b' && c == c'
    ensures 512 * (262144 * a + 512 * b + c) + d == 512 * (262144 * a' + 512 * b' + c') + d' <==>
            a == a' && b == b' && c == c' && d == d'
  {
  }

  predicate SameRegion(v: seq<nat>, w: seq<nat>) {
    |v| == |w| == 4 && v[0] == w[0] && v[1] == w[1] && v[2] == w[2]
  }

  function Widen(p: Perm): Perm {
    p.(writable := true, user := true)
  }

  function WidenMapping(m: Mapping): Mapping {
    match m
    case None => None
    case Some(frame, perm) => Some(frame, Widen(perm))
  }

  predicate EmptyTable(tab: Table) {
    forall j :: 0 <= j < |tab| ==> !tab[j].present
  }

  // ----- what an operation may do to the flat map -----

  ghost predicate Same(t: Tables, t': Tables, root: nat) {
    forall v :: IsPage(v) ==> Walk(t', root, 0, v) == Walk(t, root, 0, v)
  }

  /** Only page `w` changes, to `m`. */
  ghost predicate SetsPage(t: Tables, t': Tables, root: nat, w: seq<nat>, m: Mapping) {
    forall v :: IsPage(v) ==> Walk(t', root, 0, v) == if v == w then m else Walk(t, root, 0, v)
  }

  /** Only the 2 MiB region of `w` changes, to what the directory entry `e` says. */
  ghost predicate SetsRegion(t: Tables, t': Tables, root: nat, w: seq<nat>, e: Entry) {
    forall v :: IsPage(v) ==> Walk(t', root, 0, v) == if SameRegion(v, w) then Leaf(e, 2, v) else Walk(t, root, 0, v)
  }

  /** Only the 2 MiB region of `w` changes, where every page gets writable and user. */
  ghost predicate WidensRegion(t: Tables, t': Tables, root: nat, w: seq<nat>) {
    forall v :: IsPage(v) ==>
      Walk(t', root, 0, v) == if SameRegion(v, w) then WidenMapping(Walk(t, root, 0, v)) else Walk(t, root, 0, v)
  }

  /** Page `w` lies in a huge page, whose directory entry is in table `f`. */
  ghost predicate HugeIn(t: Tables, places: Places, w: seq<nat>, f: nat) {
    |w| == 4 && f in t && f in places && places[f] == Prefix(w, 2) && w[2] < |t[f]| && t[f][w[2]].present && t[f][w[2]].huge
  }

  ghost predicate Huge(t: Tables, places: Places, w: seq<nat>) {
    exists f :: HugeIn(t, places, w, f)
  }

  /** The walk of `w` visits table `f` at depth `d`. */
  ghost predicate Visits(t: Tables, places: Places, f: nat, w: seq<nat>, d: nat) {
    d <= 3 && IsPage(w) && f in t && |t[f]| == 512 && f in places && places[f] == Prefix(w, d)
  }

  ghost predicate Leads(t: Tables, places: Places, f: nat, w: seq<nat>, d: nat, c: nat) {
    Visits(t, places, f, w, d) && Visits(t, places, c, w, d + 1) && Points(t[f][w[d]], d) && t[f][w[d]].frame == c
  }

  ghost predicate SameHuge(t: Tables, places: Places, t': Tables, places': Places, w: seq<nat>) {
    forall f :: HugeIn(t', places', w, f) <==> HugeIn(t, places, w, f)
  }

  lemma HugeSame(t: Tables, places: Places, t': Tables, places': Places, w: seq<nat>)
    requires SameHuge(t, places, t', places', w)
    ensures Huge(t', places', w) <==> Huge(t, places, w)
  {
  }

  lemma SameRefl(t: Tables, places: Places, root: nat, w: seq<nat>)
    ensures Same(t, t, root) && SameHuge(t, places, t, places, w)
  {
  }

  lemma SameTrans(t: Tables, places: Places, t': Tables, places': Places, t'': Tables, places'': Places, root: nat, w: seq<nat>)
    requires Same(t, t', root) && Same(t', t'', root)
    requires SameHuge(t, places, t', places', w) && SameHuge(t', places', t'', places'', w)
    ensures Same(t, t'', root) && SameHuge(t, places, t'', places'', w)
  {
  }

  lemma SameOnly(t: Tables, t': Tables, t'': Tables, root: nat)
    requires Same(t, t', root) && Same(t', t'', root)
    ensures Same(t, t'', root)
  {
  }

  lemma SetsPageBefore(t: Tables, t': Tables, t'': Tables, root: nat, w: seq<nat>, m: Mapping)
    requires SetsPage(t, t', root, w, m) && Same(t', t'', root)
    ensures SetsPage(t, t'', root, w, m)
  {
  }

  lemma SetsRegionBefore(t: Tables, t': Tables, t'': Tables, root: nat, w: seq<nat>, e: Entry)
    requires SetsRegion(t, t', root, w, e) && Same(t', t'', root)
    ensures SetsRegion(t, t'', root, w, e)
  {
  }

  lemma SetsRegionAfter(t: Tables, t': Tables, t'': Tables, root: nat, w: seq<nat>, e: Entry)
    requires Same(t, t', root) && SetsRegion(t', t'', root, w, e)
    ensures SetsRegion(t, t'', root, w, e)
  {
  }

  lemma NotPointsHuge(e: Entry)
    ensures Points(e, 2) <==> e.present && !e.huge
  {
  }

  lemma SetsPageAfter(t: Tables, t': Tables, t'': Tables, root: nat, w: seq<nat>, m: Mapping)
    requires Same(t, t', root) && SetsPage(t', t'', root, w, m)
    ensures SetsPage(t, t'', root, w, m)
  {
  }

  lemma NotPoints(e: Entry, depth: nat)
    requires !e.present || (depth == 2 && e.huge)
    ensures !Points(e, depth)
  {
  }

  lemma PointsPlain(e: Entry, depth: nat)
    requires depth < 3
    ensures e.present && !e.huge ==> Points(e, depth)
    ensures Points(e, depth) ==> e.present
  {
  }

  // ----- the edits as steps on the flat map -----

  lemma NewTableStep(t: Tables, places: Places, root: nat, f: nat, i: nat, n: nat, e: Entry)
    requires WellFormed(t, places, root) && f in t && i < 512 && n !in t && Depth(places[f]) < 3
    requires !t[f][i].present && e.present && !e.huge && e.frame == n && e.perm.writable && e.perm.user
    ensures WellFormed(Link(t, f, i, n, seq(512, _ => Zero), e), places[n := Down(places[f], i)], root)
    ensures Same(t, Link(t, f, i, n, seq(512, _ => Zero), e), root)
  {
    var tab := seq(512, _ => Zero);
    assert LeafTable(tab, Depth(places[f]) + 1);
    LinkWellFormed(t, places, root, f, i, n, tab, e);
    forall v | IsPage(v) ensures Walk(Link(t, f, i, n, tab, e), root, 0, v) == Walk(t, root, 0, v) {
      NewTableWalk(t, places, root, f, i, n, tab, e, v);
    }
  }

  lemma NewTableHuge(t: Tables, places: Places, f: nat, w: seq<nat>, d: nat, n: nat, e: Entry)
    requires Visits(t, places, f, w, d) && d < 3 && Depth(places[f]) == d && n !in t && t.Keys == places.Keys && !t[f][w[d]].present
    requires e.present && !e.huge && e.frame == n
    ensures var t', places' := Link(t, f, w[d], n, seq(512, _ => Zero), e), places[n := Down(places[f], w[d])];
            && SameHuge(t, places, t', places', w) && Visits(t', places', f, w, d) && t'.Keys == t.Keys + {n}
            && t'[f][w[d]] == e && Points(e, d)
  {
  }

  // ----- when there are enough frames -----

  /** There is a table at depth `d` on the way of `w`. */
  ghost predicate HasTable(places: Places, w: seq<nat>, d: nat) {
    d <= 3 && |w| == 4 && exists f :: f in places && places[f] == Prefix(w, d)
  }

  /** `n` frames make up for the tables that are missing on the way of `w` down to depth `d`. */
  ghost predicate Enough(places: Places, n: nat, w: seq<nat>, d: nat) {
    exists e: nat :: HasTable(places, w, e) && e <= d <= e + n
  }

  /** The walk has come to depth `i`; of the tables on its way the first `have` below the root were there before, and the
      others have been taken from the pool of `n0` frames, which has `n` left. */
  ghost predicate Reached(places0: Places, n0: nat, places: Places, n: nat, w: seq<nat>, i: nat, have: nat) {
    && have <= i && HasTable(places0, w, have) && n + (i - have) == n0
    && (forall e: nat :: have < e <= i ==> !HasTable(places0, w, e))
    && forall e: nat :: e > i ==> (HasTable(places, w, e) <==> HasTable(places0, w, e))
  }

  /** Above a table there is one at every depth. */
  lemma {:induction false} TableAbove(t: Tables, places: Places, root: nat, w: seq<nat>, d: nat, e: nat)
    requires WellFormed(t, places, root) && HasTable(places, w, e) && d <= e
    ensures HasTable(places, w, d)
    decreases e
  {
    if d < e {
      var f :| f in places && places[f] == Prefix(w, e);
      assert Prefix(w, e) == Down(Prefix(w, e - 1), w[e - 1]);
      assert Pointed(t, places, f);
      var h: nat, j: nat :| PointsTo(t, places, h, j, f);
      assert places[h] == Prefix(w, e - 1);
      TableAbove(t, places, root, w, d, e - 1);
    }
  }

  lemma ReachedOld(places0: Places, n0: nat, places: Places, n: nat, w: seq<nat>, i: nat, have: nat)
    requires Reached(places0, n0, places, n, w, i, have) && HasTable(places, w, i + 1)
    requires HasTable(places0, w, i + 1) ==> HasTable(places0, w, i)
    ensures Reached(places0, n0, places, n, w, i + 1, i + 1)
  {
    hide HasTable;
  }

  lemma ReachedNew(places0: Places, n0: nat, places: Places, n: nat, w: seq<nat>, i: nat, have: nat, f: nat)
    requires Reached(places0, n0, places, n, w, i, have) && !HasTable(places, w, i + 1) && n > 0 && i < 3 && |w| == 4
    requires f !in places
    ensures Reached(places0, n0, places[f := Prefix(w, i + 1)], n - 1, w, i + 1, have)
  {
    var places' := places[f := Prefix(w, i + 1)];
    forall e: nat | e > i + 1 ensures HasTable(places', w, e) <==> HasTable(places, w, e) { OtherDepth(places, w, i + 1, e, f); }
    hide HasTable;
  }

  lemma OtherDepth(places: Places, w: seq<nat>, d: nat, e: nat, f: nat)
    requires d != e && d <= 3 && |w| == 4 && f !in places
    ensures HasTable(places[f := Prefix(w, d)], w, e) <==> HasTable(places, w, e)
  {
    var places' := places[f := Prefix(w, d)];
    if HasTable(places, w, e) {
      var g :| g in places && places[g] == Prefix(w, e);
      assert places'[g] == Prefix(w, e);
    }
    if HasTable(places', w, e) {
      var g :| g in places' && places'[g] == Prefix(w, e);
      assert g != f && places[g] == Prefix(w, e);
    }
  }

  lemma ReachedEnough(places0: Places, n0: nat, places: Places, n: nat, w: seq<nat>, d: nat, have: nat)
    requires Reached(places0, n0, places, n, w, d, have)
    ensures Enough(places0, n0, w, d)
  {
    hide HasTable;
  }

  /** The pool is used up before depth `d`. */
  lemma ReachedShort(t0: Tables, places0: Places, root: nat, n0: nat, places: Places, w: seq<nat>, i: nat, have: nat, d: nat)
    requires WellFormed(t0, places0, root) && Reached(places0, n0, places, 0, w, i, have) && !HasTable(places, w, i + 1) && i < d
    ensures !Enough(places0, n0, w, d)
  {
    hide HasTable, WellFormed;
    forall e: nat | HasTable(places0, w, e) ensures e <= have {
      if e > i { TableAbove(t0, places0, root, w, i + 1, e); }
    }
  }

  predicate OneLess(s: set<nat>, s': set<nat>) {
    |s'| == |s| - 1
  }

  lemma TakeOne(s: set<nat>, n: nat)
    requires n in s
    ensures OneLess(s, s - {n})
  {
  }

  lemma NewTableWalk(t: Tables, places: Places, root: nat, f: nat, i: nat, n: nat, tab: Table, e: Entry, v: seq<nat>)
    requires WellFormed(t, places, root) && f in t && i < 512 && n !in t && Depth(places[f]) < 3 && IsPage(v)
    requires !t[f][i].present && LeafTable(tab, Depth(places[f]) + 1) && EmptyTable(tab)
    requires e.present && !e.huge && e.frame == n && e.perm.writable && e.perm.user
    ensures Walk(Link(t, f, i, n, tab, e), root, 0, v) == Walk(t, root, 0, v)
  {
    LinkWalk(t, places, root, f, i, n, tab, e, v);
    if Through(v, places[f], i) {
      PutLeaf(t, places, root, f, i, Zero, v);
    }
  }

  lemma ReclaimStep(t: Tables, places: Places, root: nat, f: nat, i: nat, c: nat)
    requires WellFormed(t, places, root) && PointsTo(t, places, f, i, c) && c in t && EmptyTable(t[c])
    ensures c != root && c != f && c in places && places[c] == Down(places[f], i)
    ensures WellFormed(Unlink(t, f, i, c, Zero), places - {c}, root)
    ensures Same(t, Unlink(t, f, i, c, Zero), root)
  {
    assert |t[c]| == 512;
    assert LeafTable(t[c], Depth(places[f]) + 1);
    UnlinkWellFormed(t, places, root, f, i, c, Zero);
    forall v | IsPage(v) ensures Walk(Unlink(t, f, i, c, Zero), root, 0, v) == Walk(t, root, 0, v) {
      UnlinkWalk(t, places, root, f, i, c, Zero, v);
    }
  }

  /** The tables above the one that is released still lead to one another. */
  lemma ReclaimLeads(t: Tables, places: Places, f: nat, w: seq<nat>, d: nat, c: nat)
    requires Leads(t, places, f, w, d, c) && c != f && Depth(places[f]) == d && Depth(places[c]) == d + 1
    requires forall g :: g in places ==> g == c || places[g] != places[c]
    ensures var t', places' := Unlink(t, f, w[d], c, Zero), places - {c};
            && t'.Keys == t.Keys - {c} && Visits(t', places', f, w, d) && !Points(t'[f][w[d]], d)
            && forall g: nat, k: nat, x: nat :: k < d && Leads(t, places, g, w, k, x) ==> Leads(t', places', g, w, k, x)
  {
    var t', places' := Unlink(t, f, w[d], c, Zero), places - {c};
    forall g: nat, k: nat, x: nat | k < d && Leads(t, places, g, w, k, x) ensures Leads(t', places', g, w, k, x) {
      assert Depth(places[g]) == k && Depth(places[x]) == k + 1;
    }
  }

  lemma PointerStep(t: Tables, places: Places, root: nat, f: nat, i: nat, e: Entry)
    requires WellFormed(t, places, root) && f in t && i < 512
    requires Points(t[f][i], Depth(places[f])) && Like(t[f][i], e, Depth(places[f])) && EntryOk(e, Depth(places[f]))
    ensures WellFormed(Put(t, f, i, e), places, root) && Same(t, Put(t, f, i, e), root)
  {
    PutWellFormed(t, places, root, f, i, e);
    forall v | IsPage(v) ensures Walk(Put(t, f, i, e), root, 0, v) == Walk(t, root, 0, v) {
      PutPointer(t, places, root, root, f, i, e, v);
    }
  }

  lemma PageStep(t: Tables, places: Places, root: nat, w: seq<nat>, f: nat, e: Entry)
    requires WellFormed(t, places, root) && IsPage(w) && f in t && places[f] == Prefix(w, 3) && !e.huge
    ensures WellFormed(Put(t, f, w[3], e), places, root)
    ensures SetsPage(t, Put(t, f, w[3], e), root, w, Leaf(e, 3, w))
    ensures Walk(t, root, 0, w) == Leaf(t[f][w[3]], 3, w)
  {
    PutWellFormed(t, places, root, f, w[3], e);
    forall v | IsPage(v) ensures Walk(Put(t, f, w[3], e), root, 0, v) == if v == w then Leaf(e, 3, w) else Walk(t, root, 0, v) {
      SamePage(v, w);
      if v == w {
        PutLeaf(t, places, root, f, w[3], e, v);
      } else {
        PutElsewhere(t, places, root, f, w[3], e, v);
      }
    }
    PutLeaf(t, places, root, f, w[3], e, w);
  }

  lemma SamePage(v: seq<nat>, w: seq<nat>)
    requires IsPage(v) && IsPage(w)
    ensures Through(v, Prefix(w, 3), w[3]) <==> v == w
    ensures Through(v, Prefix(w, 2), w[2]) <==> SameRegion(v, w)
  {
    assert Prefix(v, 1) == Down(Prefix(v, 0), v[0]) && Prefix(v, 2) == Down(Prefix(v, 1), v[1]) && Prefix(v, 3) == Down(Prefix(v, 2), v[2]);
    assert Prefix(w, 1) == Down(Prefix(w, 0), w[0]) && Prefix(w, 2) == Down(Prefix(w, 1), w[1]) && Prefix(w, 3) == Down(Prefix(w, 2), w[2]);
    assert v == w <==> v[0] == w[0] && v[1] == w[1] && v[2] == w[2] && v[3] == w[3];
  }

  lemma RegionStep(t: Tables, places: Places, root: nat, w: seq<nat>, f: nat, e: Entry)
    requires WellFormed(t, places, root) && IsPage(w) && f in t && places[f] == Prefix(w, 2)
    requires !Points(t[f][w[2]], 2) && !Points(e, 2) && EntryOk(e, 2)
    ensures WellFormed(Put(t, f, w[2], e), places, root)
    ensures SetsRegion(t, Put(t, f, w[2], e), root, w, e)
    ensures SetsRegion(t, t, root, w, t[f][w[2]])
  {
    PutWellFormed(t, places, root, f, w[2], e);
    forall v | IsPage(v)
      ensures Walk(Put(t, f, w[2], e), root, 0, v) == if SameRegion(v, w) then Leaf(e, 2, v) else Walk(t, root, 0, v)
      ensures SameRegion(v, w) ==> Walk(t, root, 0, v) == Leaf(t[f][w[2]], 2, v)
    {
      SamePage(v, w);
      if SameRegion(v, w) {
        PutLeaf(t, places, root, f, w[2], e, v);
      } else {
        PutElsewhere(t, places, root, f, w[2], e, v);
      }
    }
  }

  lemma HugePut(t: Tables, places: Places, w: seq<nat>, f: nat, c: nat, e: Entry)
    requires Visits(t, places, f, w, 2) && e.huge
    ensures Put(t, f, w[2], e).Keys == t.Keys && (c != f ==> Unlink(t, f, w[2], c, e).Keys == t.Keys - {c})
    ensures e.present ==> Huge(Put(t, f, w[2], e), places, w) && (c != f ==> Huge(Unlink(t, f, w[2], c, e), places - {c}, w))
  {
    assert e.present ==> HugeIn(Put(t, f, w[2], e), places, w, f);
    assert e.present && c != f ==> HugeIn(Unlink(t, f, w[2], c, e), places - {c}, w, f);
  }

  lemma ReplaceStep(t: Tables, places: Places, root: nat, w: seq<nat>, f: nat, c: nat, e: Entry)
    requires WellFormed(t, places, root) && IsPage(w) && f in t && places[f] == Prefix(w, 2)
    requires PointsTo(t, places, f, w[2], c) && c in t && !Points(e, 2) && EntryOk(e, 2)
    ensures c != root && c != f && WellFormed(Unlink(t, f, w[2], c, e), places - {c}, root)
    ensures SetsRegion(t, Unlink(t, f, w[2], c, e), root, w, e)
  {
    assert LeafTable(t[c], 3) by { assert places[c] == Down(places[f], w[2]); assert Depth(places[c]) == 3; }
    UnlinkWellFormed(t, places, root, f, w[2], c, e);
    forall v | IsPage(v)
      ensures Walk(Unlink(t, f, w[2], c, e), root, 0, v) == if SameRegion(v, w) then Leaf(e, 2, v) else Walk(t, root, 0, v)
    {
      SamePage(v, w);
      UnlinkWalk(t, places, root, f, w[2], c, e, v);
    }
  }

  lemma SplitStep(t: Tables, places: Places, root: nat, w: seq<nat>, f: nat, n: nat, tab: Table, e: Entry)
    requires WellFormed(t, places, root) && IsPage(w) && HugeIn(t, places, w, f) && n !in t
    requires e.present && !e.huge && e.frame == n && e.perm.writable && e.perm.user && |tab| == 512
    requires forall j :: 0 <= j < 512 ==> tab[j] == Entry(true, false, t[f][w[2]].frame + j, t[f][w[2]].perm)
    ensures WellFormed(Link(t, f, w[2], n, tab, e), places[n := Down(places[f], w[2])], root)
    ensures Same(t, Link(t, f, w[2], n, tab, e), root)
  {
    assert Depth(places[f]) == 2 && LeafTable(tab, 3);
    LinkWellFormed(t, places, root, f, w[2], n, tab, e);
    var h := t[f][w[2]];
    assert EntryOk(h, 2);
    forall v | IsPage(v) ensures Walk(Link(t, f, w[2], n, tab, e), root, 0, v) == Walk(t, root, 0, v) {
      LinkWalk(t, places, root, f, w[2], n, tab, e, v);
      if Through(v, places[f], w[2]) {
        PutLeaf(t, places, root, f, w[2], h, v);
      }
    }
  }

  // ----- when a failed map is not silent -----

  /** What `vmm_map` leaves behind when it meets a huge page: the directory entry made writable and user. */
  lemma WidenStep(t: Tables, places: Places, root: nat, w: seq<nat>, f: nat)
    requires WellFormed(t, places, root) && IsPage(w) && HugeIn(t, places, w, f)
    ensures var e := t[f][w[2]]; WellFormed(Put(t, f, w[2], e.(perm := Widen(e.perm))), places, root)
    ensures var e := t[f][w[2]]; WidensRegion(t, Put(t, f, w[2], e.(perm := Widen(e.perm))), root, w)
  {
    var e := t[f][w[2]];
    assert EntryOk(e, 2);
    RegionStep(t, places, root, w, f, e.(perm := Widen(e.perm)));
  }

  /** A failed map leaves the flat map alone exactly when the huge page in its way was writable and user already. */
  lemma WidenSilentIff(t: Tables, places: Places, root: nat, w: seq<nat>, f: nat, t': Tables)
    requires WellFormed(t, places, root) && IsPage(w) && HugeIn(t, places, w, f) && WidensRegion(t, t', root, w)
    ensures Same(t, t', root) <==> t[f][w[2]].perm.writable && t[f][w[2]].perm.user
  {
    var e := t[f][w[2]];
    assert EntryOk(e, 2);
    RegionStep(t, places, root, w, f, e);
    assert SameRegion(w, w);
    assert Walk(t, root, 0, w) == Leaf(e, 2, w);
    if e.perm.writable && e.perm.user {
      assert Widen(e.perm) == e.perm;
    }
  }

  // ----- the map itself -----

  /** One map: its tables in memory, and the frames `pmm_alloc_pages(0)` can still hand out. */
  class AddressMap {
    const root: nat
    var tables: Tables
    var pool: set<nat>
    ghost var places: Places

    ghost predicate Valid()
      reads this
    {
      WellFormed(tables, places, root) && pool !! tables.Keys
    }

    /** All frames the map and the allocator hold between them. */
    ghost function Frames(): set<nat>
      reads this
    {
      pool + tables.Keys
    }

    /** Table `f` is the one the walk of `w` visits at depth `d`. */
    ghost predicate At(f: nat, w: seq<nat>, d: nat)
      reads this
    {
      Visits(tables, places, f, w, d)
    }

    /** On the way of `w`, table `f` at depth `d` leads to table `c`. */
    ghost predicate LeadsTo(f: nat, w: seq<nat>, d: nat, c: nat)
      reads this
    {
      Leads(tables, places, f, w, d, c)
    }

    lemma AtFacts(f: nat, w: seq<nat>, d: nat)
      requires Valid() && At(f, w, d)
      ensures |tables[f]| == 512 && Depth(places[f]) == d && w[d] < 512 && EntryOk(tables[f][w[d]], d)
      ensures Points(tables[f][w[d]], d) ==>
        !tables[f][w[d]].huge && PointsTo(tables, places, f, w[d], tables[f][w[d]].frame) && At(tables[f][w[d]].frame, w, d + 1)
    {
      if Points(tables[f][w[d]], d) {
        assert PointsTo(tables, places, f, w[d], tables[f][w[d]].frame);
      }
    }

    lemma AtSpot(f: nat, w: seq<nat>, d: nat)
      requires Valid() && At(f, w, d)
      ensures f in tables && |tables[f]| == 512 && d <= 3 && IsPage(w) && w[d] < 512 && tables.Keys == places.Keys
      ensures places[f] == Prefix(w, d) && Depth(places[f]) == d && WellFormed(tables, places, root) && pool !! tables.Keys
    {
    }

    /** No table is at `w` deeper than an entry that points nowhere. */
    lemma NoneBelow(f: nat, w: seq<nat>, d: nat, g: nat, d': nat)
      requires Valid() && At(f, w, d) && !Points(tables[f][w[d]], d) && d < d'
      ensures !At(g, w, d')
      decreases d'
    {
      if At(g, w, d') {
        assert Pointed(tables, places, g);
        var h: nat, j: nat :| PointsTo(tables, places, h, j, g);
        assert places[g] == Down(places[h], j);
        assert Prefix(w, d') == Down(Prefix(w, d' - 1), w[d' - 1]);
        if d' - 1 > d {
          NoneBelow(f, w, d, h, d' - 1);
        }
      }
    }

    lemma NotHuge(f: nat, w: seq<nat>, d: nat)
      requires Valid() && At(f, w, d) && (d == 3 || !tables[f][w[d]].present)
      ensures !Huge(tables, places, w)
    {
      if Huge(tables, places, w) {
        var h: nat :| HugeIn(tables, places, w, h);
        if d == 3 {
          NoneBelow(h, w, 2, f, 3);
        } else if d < 2 {
          NoneBelow(f, w, d, h, 2);
        }
      }
    }

    /** `vmm_create_user_map`, without the kernel half: nothing is mapped. */
    constructor (pml4: nat, frames: set<nat>)
      requires pml4 !in frames
      ensures root == pml4 && pool == frames && Valid() && forall w :: IsPage(w) ==> Walk(tables, root, 0, w) == None
    {
      root := pml4;
      tables := map[pml4 := seq(512, _ => Zero)];
      pool := frames;
      places := map[pml4 := Root];
    }

    // ----- growing the tree -----

    /** The step `vmm_get_pte` and `vmm_map_huge` share: an absent entry gets a new, zeroed table. */
    method NewTable(f: nat, w: seq<nat>, d: nat) returns (ok: bool, ghost n: nat)
      requires Valid() && At(f, w, d) && d < 3 && !tables[f][w[d]].present
      modifies this
      ensures Valid() && Frames() == old(Frames()) && Same(old(tables), tables, root)
      ensures ok == (old(pool) != {}) && (ok ==> OneLess(old(pool), pool))
      ensures !ok ==> tables == old(tables) && places == old(places) && pool == old(pool)
      ensures ok ==> At(f, w, d) && Points(tables[f][w[d]], d) && !tables[f][w[d]].huge
      ensures ok ==> n !in old(places) && places == old(places)[n := Prefix(w, d + 1)]
      ensures SameHuge(old(tables), old(places), tables, places, w)
    {
      hide WellFormed, Walk, Same, SameHuge, Points, Link, Visits, OneLess, IsPage;
      AtSpot(f, w, d);
      SameRefl(tables, places, root, w);
      if pool == {} {
        return false, 0;
      }
      var frame :| frame in pool;
      n := frame;
      var e := Entry(true, false, frame, Perm(true, true, 0));
      NewTableStep(tables, places, root, f, w[d], n, e);
      NewTableHuge(tables, places, f, w, d, n, e);
      TakeOne(pool, n);
      pool := pool - {frame};
      assert Prefix(w, d + 1) == Down(places[f], w[d]);
      places := places[n := Down(places[f], w[d])];
      tables := Link(tables, f, w[d], frame, seq(512, _ => Zero), e);
      ok := true;
    }

    /** The other branch: a present entry that points to a table is made writable and user. */
    method WidenPointer(f: nat, w: seq<nat>, d: nat)
      requires Valid() && At(f, w, d) && Points(tables[f][w[d]], d)
      modifies this`tables
      ensures Valid() && Frames() == old(Frames()) && Same(old(tables), tables, root)
      ensures At(f, w, d) && Points(tables[f][w[d]], d) && !tables[f][w[d]].huge
      ensures SameHuge(old(tables), places, tables, places, w)
    {
      AtFacts(f, w, d);
      var e := tables[f][w[d]];
      PointerStep(tables, places, root, f, w[d], e.(perm := Widen(e.perm)));
      tables := Put(tables, f, w[d], e.(perm := Widen(e.perm)));
    }

    /** `vmm_get_pte`: the table that holds the entry of page `w`, if there is one or it can be made. */
    method GetPte(w: seq<nat>, allocate: bool) returns (ok: bool, f: nat)
      requires Valid() && IsPage(w)
      modifies this
      ensures Valid() && Frames() == old(Frames())
      ensures !allocate ==> tables == old(tables) && places == old(places) && pool == old(pool)
      ensures ok ==> At(f, w, 3) && !old(Huge(tables, places, w)) && Same(old(tables), tables, root)
      ensures !ok && !allocate ==> forall g :: !At(g, w, 3)
      ensures allocate ==> (ok <==> !old(Huge(tables, places, w)) && old(Enough(places, |pool|, w, 3)))
      ensures !ok && allocate && !old(Huge(tables, places, w)) ==> pool == {} && Same(old(tables), tables, root)
      ensures !ok && allocate && old(Huge(tables, places, w)) ==> WidensRegion(old(tables), tables, root, w)
    {
      hide WellFormed, Walk, Same, SameHuge, Points, HugeIn;
      f := root;
      RootAt(w);
      SameRefl(tables, places, root, w);
      ghost var have := 0;
      ReachedStart(w);
      hide Reached, HasTable, Enough;
      for i := 0 to 3
        invariant Valid() && Frames() == old(Frames()) && At(f, w, i)
        invariant Reached(old(places), |old(pool)|, places, |pool|, w, i, have)
        invariant !allocate ==> tables == old(tables) && places == old(places) && pool == old(pool)
        invariant Same(old(tables), tables, root) && SameHuge(old(tables), old(places), tables, places, w)
      {
        AtFacts(f, w, i);
        label before:
        if !tables[f][w[i]].present {
          if !allocate {
            forall g ensures !At(g, w, 3) { NotPoints(tables[f][w[i]], i); NoneBelow(f, w, i, g, 3); }
            return false, f;
          }
          NoNext(f, w, i);
          var made, n := NewTable(f, w, i);
          SameTrans(old(tables), old(places), old@before(tables), old@before(places), tables, places, root, w);
          if !made {
            NotHuge(f, w, i);
            HugeSame(old(tables), old(places), tables, places, w);
            ReachedShort(old(tables), old(places), root, |old(pool)|, places, w, i, have, 3);
            return false, f;
          }
          ReachedNew(old(places), |old(pool)|, old@before(places), |old@before(pool)|, w, i, have, n);
        } else if tables[f][w[i]].huge {
          HugeFound(f, w, i);
          HugeSame(old(tables), old(places), tables, places, w);
          if allocate {
            WidenHuge(f, w, old(tables));
          } else {
            forall g ensures !At(g, w, 3) { NotPoints(tables[f][w[i]], i); NoneBelow(f, w, i, g, 3); }
          }
          return false, f;
        } else {
          PointsPlain(tables[f][w[i]], i);
          have := OldNext(f, w, i, old(tables), old(places), |old(pool)|, have);
          if allocate {
            WidenPointer(f, w, i);
            SameTrans(old(tables), old(places), old@before(tables), old@before(places), tables, places, root, w);
          }
        }
        AtFacts(f, w, i);
        PointsPlain(tables[f][w[i]], i);
        f := tables[f][w[i]].frame;
      }
      NotHuge(f, w, 3);
      HugeSame(old(tables), old(places), tables, places, w);
      ReachedEnough(old(places), |old(pool)|, places, |pool|, w, 3, have);
      ok := true;
    }

    /** The entry is widened before its huge bit is looked at. */
    method WidenHuge(f: nat, w: seq<nat>, ghost t0: Tables)
      requires Valid() && IsPage(w) && HugeIn(tables, places, w, f) && Same(t0, tables, root)
      modifies this`tables
      ensures Valid() && Frames() == old(Frames()) && WidensRegion(t0, tables, root, w)
    {
      WidenStep(tables, places, root, w, f);
      assert |tables[f]| == 512;
      var e := tables[f][w[2]];
      tables := Put(tables, f, w[2], e.(perm := Widen(e.perm)));
    }

    lemma ReachedStart(w: seq<nat>)
      requires Valid() && IsPage(w)
      ensures Reached(places, |pool|, places, |pool|, w, 0, 0)
    {
      RootAt(w);
      assert places[root] == Prefix(w, 0);
    }

    /** A frame for every level is always enough. */
    lemma RootEnough(w: seq<nat>, d: nat)
      requires Valid() && IsPage(w) && d <= |pool|
      ensures Enough(places, |pool|, w, d)
    {
      ReachedStart(w);
    }

    /** Whether a table on the way of `w` has a table below it. */
    lemma NextTable(f: nat, w: seq<nat>, d: nat)
      requires Valid() && At(f, w, d) && d < 3
      ensures Points(tables[f][w[d]], d) <==> HasTable(places, w, d + 1)
    {
      AtFacts(f, w, d);
      if Points(tables[f][w[d]], d) {
        assert places[tables[f][w[d]].frame] == Prefix(w, d + 1);
      } else if HasTable(places, w, d + 1) {
        var g :| g in places && places[g] == Prefix(w, d + 1);
        NoneBelow(f, w, d, g, d + 1);
      }
    }

    lemma NoNext(f: nat, w: seq<nat>, d: nat)
      requires Valid() && At(f, w, d) && d < 3 && !tables[f][w[d]].present
      ensures !HasTable(places, w, d + 1)
    {
      NextTable(f, w, d);
    }

    /** A table that is there was there before. */
    lemma OldNext(f: nat, w: seq<nat>, d: nat, t0: Tables, places0: Places, n0: nat, have: nat) returns (have': nat)
      requires Valid() && At(f, w, d) && d < 3 && Points(tables[f][w[d]], d)
      requires WellFormed(t0, places0, root) && Reached(places0, n0, places, |pool|, w, d, have)
      ensures Reached(places0, n0, places, |pool|, w, d + 1, have')
    {
      NextTable(f, w, d);
      hide HasTable, Reached, WellFormed, Points;
      if HasTable(places0, w, d + 1) { TableAbove(t0, places0, root, w, d, d + 1); }
      ReachedOld(places0, n0, places, |pool|, w, d, have);
      have' := d + 1;
    }

    lemma RootAt(w: seq<nat>)
      requires Valid() && IsPage(w)
      ensures At(root, w, 0)
    {
    }

    lemma HugeFound(f: nat, w: seq<nat>, d: nat)
      requires Valid() && At(f, w, d) && d < 3 && w[d] < |tables[f]| && tables[f][w[d]].present && tables[f][w[d]].huge
      ensures d == 2 && HugeIn(tables, places, w, f) && Huge(tables, places, w)
    {
      AtFacts(f, w, d);
      assert d == 2;
      assert HugeIn(tables, places, w, f);
    }

    // ----- mapping -----

    /** `vmm_map`. */
    method Map(w: seq<nat>, frame: nat, present: bool, perm: Perm) returns (ok: bool)
      requires Valid() && IsPage(w)
      modifies this
      ensures Valid() && Frames() == old(Frames())
      ensures ok <==> !old(Huge(tables, places, w)) && old(Enough(places, |pool|, w, 3))
      ensures ok ==> SetsPage(old(tables), tables, root, w, if present then Some(frame, perm) else None)
      ensures old(Huge(tables, places, w)) ==> !ok && WidensRegion(old(tables), tables, root, w)
      ensures !ok && !old(Huge(tables, places, w)) ==> pool == {} && Same(old(tables), tables, root)
    {
      hide WellFormed, Walk, Same, Points, Huge, SetsPage, Enough;
      var found, f := GetPte(w, true);
      if !found {
        return false;
      }
      AtFacts(f, w, 3);
      var e := Entry(present, false, frame, perm);
      PageStep(tables, places, root, w, f, e);
      SetsPageAfter(old(tables), tables, Put(tables, f, w[3], e), root, w, Leaf(e, 3, w));
      tables := Put(tables, f, w[3], e);
      ok := true;
    }

    /** `vmm_map_huge`. */
    method MapHuge(w: seq<nat>, frame: nat, present: bool, perm: Perm) returns (ok: bool)
      requires Valid() && IsPage(w)
      modifies this
      ensures Valid() && Frames() == old(Frames())
      ensures ok ==> w[3] == 0 && frame % 512 == 0 && SetsRegion(old(tables), tables, root, w, Entry(present, true, frame, perm))
      ensures ok && present ==> Huge(tables, places, w)
      ensures ok <==> w[3] == 0 && frame % 512 == 0 && old(Enough(places, |pool|, w, 2))
      ensures !ok ==> Same(old(tables), tables, root)
    {
      hide WellFormed, Walk, Same, SameHuge, Points, Huge, SetsRegion;
      SameRefl(tables, places, root, w);
      if w[3] != 0 || frame % 512 != 0 {
        return false;
      }
      var f := root;
      RootAt(w);
      ghost var have := 0;
      ReachedStart(w);
      hide Reached, HasTable, Enough;
      for i := 0 to 2
        invariant Valid() && Frames() == old(Frames()) && At(f, w, i)
        invariant Reached(old(places), |old(pool)|, places, |pool|, w, i, have)
        invariant Same(old(tables), tables, root) && SameHuge(old(tables), old(places), tables, places, w)
      {
        AtFacts(f, w, i);
        label before:
        if !tables[f][w[i]].present {
          NoNext(f, w, i);
          var made, n := NewTable(f, w, i);
          SameTrans(old(tables), old(places), old@before(tables), old@before(places), tables, places, root, w);
          if !made {
            ReachedShort(old(tables), old(places), root, |old(pool)|, places, w, i, have, 2);
            return false;
          }
          ReachedNew(old(places), |old(pool)|, old@before(places), |old@before(pool)|, w, i, have, n);
        } else {
          PointsPlain(tables[f][w[i]], i);
          have := OldNext(f, w, i, old(tables), old(places), |old(pool)|, have);
        }
        AtFacts(f, w, i);
        PointsPlain(tables[f][w[i]], i);
        f := tables[f][w[i]].frame;
      }
      ReachedEnough(old(places), |old(pool)|, places, |pool|, w, 2, have);
      SetDirectory(f, w, Entry(present, true, frame, perm), old(tables));
      ok := true;
    }

    /** The directory entry becomes `e`; a page table below it is released. */
    method SetDirectory(f: nat, w: seq<nat>, e: Entry, ghost t0: Tables)
      requires Valid() && At(f, w, 2) && Same(t0, tables, root) && e.huge && e.frame % 512 == 0
      modifies this
      ensures Valid() && Frames() == old(Frames()) && SetsRegion(t0, tables, root, w, e) && (e.present ==> Huge(tables, places, w))
    {
      hide WellFormed, Walk, Same, Huge, SetsRegion, Visits, Put, Unlink;
      AtSpot(f, w, 2);
      AtFacts(f, w, 2);
      PointsPlain(tables[f][w[2]], 2);
      NotPointsHuge(tables[f][w[2]]);
      var d := tables[f][w[2]];
      if d.present && !d.huge {
        AtSpot(d.frame, w, 3);
        ReplaceStep(tables, places, root, w, f, d.frame, e);
        HugePut(tables, places, w, f, d.frame, e);
        SetsRegionAfter(t0, tables, Unlink(tables, f, w[2], d.frame, e), root, w, e);
        tables := Unlink(tables, f, w[2], d.frame, e);
        places := places - {d.frame};
        pool := pool + {d.frame};
      } else {
        RegionStep(tables, places, root, w, f, e);
        HugePut(tables, places, w, f, f, e);
        SetsRegionAfter(t0, tables, Put(tables, f, w[2], e), root, w, e);
        tables := Put(tables, f, w[2], e);
      }
    }

    // ----- unmapping -----

    lemma Unmapped(f: nat, w: seq<nat>, d: nat)
      requires Valid() && At(f, w, d) && !tables[f][w[d]].present
      ensures Walk(tables, root, 0, w) == None && SetsPage(tables, tables, root, w, None)
    {
      WalkFrom(tables, places, root, f, w);
    }

    /** No table on the way of `w` below the root is empty. */
    ghost predicate Tidy(w: seq<nat>)
      reads this
    {
      forall g: nat, k: nat :: At(g, w, k) && k > 0 ==> !EmptyTable(tables[g])
    }

    lemma TidyFrom(f: nat, w: seq<nat>, d: nat)
      requires Valid() && At(f, w, d) && !Points(tables[f][w[d]], d) && (d == 0 || !EmptyTable(tables[f]))
      ensures Tidy(w)
    {
      forall g: nat, k: nat | At(g, w, k) && k > 0 ensures !EmptyTable(tables[g]) {
        AtFacts(g, w, k);
        if k > d {
          NoneBelow(f, w, d, g, k);
        } else if k < d {
          PointsAbove(g, w, k, f, d);
          assert tables[g][w[k]].present;
        }
      }
    }

    lemma PointsAbove(g: nat, w: seq<nat>, k: nat, f: nat, d: nat)
      requires Valid() && At(g, w, k) && At(f, w, d) && k < d
      ensures Points(tables[g][w[k]], k)
    {
      if !Points(tables[g][w[k]], k) {
        NoneBelow(g, w, k, f, d);
      }
    }

    /** `vmm_pt_is_empty`. */
    method IsEmpty(f: nat) returns (empty: bool)
      requires f in tables && |tables[f]| == 512
      ensures empty <==> EmptyTable(tables[f])
    {
      for i := 0 to 512
        invariant forall j :: 0 <= j < i ==> !tables[f][j].present
      {
        if tables[f][i].present {
          return false;
        }
      }
      return true;
    }

    /** Table `c`, below the entry of `w` in `f`, is released if it is empty. */
    method Reclaim(f: nat, w: seq<nat>, d: nat, c: nat) returns (freed: bool)
      requires Valid() && LeadsTo(f, w, d, c) && !Points(tables[c][w[d + 1]], d + 1)
      modifies this
      ensures Valid() && Frames() == old(Frames()) && Same(old(tables), tables, root)
      ensures !freed ==> Tidy(w)
      ensures freed ==> At(f, w, d) && !Points(tables[f][w[d]], d)
      ensures freed ==> forall g: nat, k: nat, x: nat :: k < d && old(LeadsTo(g, w, k, x)) ==> LeadsTo(g, w, k, x)
    {
      AtFacts(f, w, d);
      AtFacts(c, w, d + 1);
      freed := IsEmpty(c);
      if freed {
        ReclaimStep(tables, places, root, f, w[d], c);
        ReclaimLeads(tables, places, f, w, d, c);
        hide WellFormed, Walk, Same, Points, Leads, Visits, Unlink;
        tables := Unlink(tables, f, w[d], c, Zero);
        places := places - {c};
        pool := pool + {c};
      } else {
        TidyFrom(c, w, d + 1);
        SameRefl(tables, places, root, w);
      }
    }

    /** The nested clean-up of `vmm_unmap`, from the table at depth `d` on the way of `w` upwards. */
    method ReclaimFrom(chain: seq<nat>, w: seq<nat>, d: nat)
      requires Valid() && d <= 3 && |chain| == d + 1
      requires At(chain[d], w, d) && !Points(tables[chain[d]][w[d]], d)
      requires forall k: nat :: k < d ==> LeadsTo(chain[k], w, k, chain[k + 1])
      modifies this
      ensures Valid() && Frames() == old(Frames()) && Same(old(tables), tables, root) && Tidy(w)
      decreases d
    {
      hide WellFormed, Walk, Same, Points;
      SameRefl(tables, places, root, w);
      if d == 0 {
        TidyFrom(chain[0], w, 0);
      } else {
        var freed := Reclaim(chain[d - 1], w, d - 1, chain[d]);
        if freed {
          label middle:
          ReclaimFrom(chain[..d], w, d - 1);
          SameOnly(old(tables), old@middle(tables), tables, root);
        }
      }
    }

    /** The leaf entry of `w` in the last table of the chain is cleared, and empty tables are released. */
    method Clear(chain: seq<nat>, w: seq<nat>, d: nat)
      requires Valid() && 2 <= d <= 3 && |chain| == d + 1 && At(chain[d], w, d)
      requires tables[chain[d]][w[d]].present && !Points(tables[chain[d]][w[d]], d)
      requires forall k: nat :: k < d ==> LeadsTo(chain[k], w, k, chain[k + 1])
      modifies this
      ensures Valid() && Frames() == old(Frames()) && Tidy(w)
      ensures d == 2 ==> SetsRegion(old(tables), tables, root, w, Zero)
      ensures d == 3 ==> SetsPage(old(tables), tables, root, w, None)
    {
      if d == 2 {
        RegionStep(tables, places, root, w, chain[2], Zero);
      } else {
        PageStep(tables, places, root, w, chain[3], Zero);
      }
      hide WellFormed, Walk, Same, SetsPage, SetsRegion;
      tables := Put(tables, chain[d], w[d], Zero);
      ChainKept(chain, w, d, old(tables));
      label cleared:
      ReclaimFrom(chain, w, d);
      if d == 2 {
        SetsRegionBefore(old(tables), old@cleared(tables), tables, root, w, Zero);
      } else {
        SetsPageBefore(old(tables), old@cleared(tables), tables, root, w, None);
      }
    }

    lemma ChainKept(chain: seq<nat>, w: seq<nat>, d: nat, t0: Tables)
      requires d <= 3 && |chain| == d + 1 && IsPage(w) && chain[d] in t0 && |t0[chain[d]]| == 512 && tables == Put(t0, chain[d], w[d], Zero)
      requires chain[d] in places && places[chain[d]] == Prefix(w, d)
      requires forall k: nat :: k < d ==> Leads(t0, places, chain[k], w, k, chain[k + 1])
      ensures At(chain[d], w, d) && !Points(tables[chain[d]][w[d]], d)
      ensures forall k: nat :: k < d ==> LeadsTo(chain[k], w, k, chain[k + 1])
    {
      forall k: nat | k < d ensures LeadsTo(chain[k], w, k, chain[k + 1]) {
        assert Leads(t0, places, chain[k], w, k, chain[k + 1]);
        assert Depth(places[chain[k]]) == k;
      }
    }

    /** `vmm_unmap`. */
    method Unmap(w: seq<nat>)
      requires Valid() && IsPage(w)
      modifies this
      ensures Valid() && Frames() == old(Frames())
      ensures old(Huge(tables, places, w)) ==> SetsRegion(old(tables), tables, root, w, Zero)
      ensures !old(Huge(tables, places, w)) ==> SetsPage(old(tables), tables, root, w, None)
      ensures old(Walk(tables, root, 0, w)) != None ==> Tidy(w)
    {
      hide WellFormed, Walk, Same, SetsPage, SetsRegion, Points, Huge;
      var chain := [root];
      RootAt(w);
      for i := 0 to 2
        invariant |chain| == i + 1 && At(chain[i], w, i) && tables == old(tables) && places == old(places) && pool == old(pool)
        invariant forall k: nat :: k < i ==> LeadsTo(chain[k], w, k, chain[k + 1])
      {
        AtFacts(chain[i], w, i);
        if !tables[chain[i]][w[i]].present {
          NotHuge(chain[i], w, i);
          Unmapped(chain[i], w, i);
          return;
        }
        PointsPlain(tables[chain[i]][w[i]], i);
        chain := chain + [tables[chain[i]][w[i]].frame];
      }
      AtFacts(chain[2], w, 2);
      PointsPlain(tables[chain[2]][w[2]], 2);
      if !tables[chain[2]][w[2]].present {
        NotHuge(chain[2], w, 2);
        Unmapped(chain[2], w, 2);
        return;
      }
      if tables[chain[2]][w[2]].huge {
        HugeFound(chain[2], w, 2);
        NotPoints(tables[chain[2]][w[2]], 2);
        Clear(chain, w, 2);
        return;
      }
      chain := chain + [tables[chain[2]][w[2]].frame];
      AtFacts(chain[3], w, 3);
      NotHuge(chain[3], w, 3);
      if !tables[chain[3]][w[3]].present {
        Unmapped(chain[3], w, 3);
        return;
      }
      Clear(chain, w, 3);
    }

    // ----- looking up -----

    /** `vmm_get_phys`, for the byte at `offset` of page `w`. */
    method GetPhys(w: seq<nat>, offset: nat) returns (phys: nat)
      requires Valid() && IsPage(w) && offset < 4096
      ensures phys == match Walk(tables, root, 0, w) case None => 0 case Some(frame, _) => frame * 4096 + offset
    {
      var f := root;
      RootAt(w);
      for i := 0 to 2
        invariant At(f, w, i)
      {
        AtFacts(f, w, i);
        if !tables[f][w[i]].present {
          Unmapped(f, w, i);
          return 0;
        }
        f := tables[f][w[i]].frame;
      }
      AtFacts(f, w, 2);
      var e := tables[f][w[2]];
      if !e.present {
        Unmapped(f, w, 2);
        return 0;
      }
      if e.huge {
        PutLeaf(tables, places, root, f, w[2], Zero, w);
        return (e.frame - e.frame % 512) * 4096 + (w[3] * 4096 + offset);
      }
      f := e.frame;
      AtFacts(f, w, 3);
      PutLeaf(tables, places, root, f, w[3], Zero, w);
      if !tables[f][w[3]].present {
        return 0;
      }
      return tables[f][w[3]].frame * 4096 + offset;
    }

    // ----- splitting a huge page -----

    /** `mmu_split_huge_page_locked`: the 512 page entries that say what the directory entry `h` said. */
    method PageEntries(h: Entry) returns (tab: Table)
      ensures |tab| == 512 && forall j :: 0 <= j < 512 ==> tab[j] == Entry(h.present, false, h.frame + j, h.perm)
    {
      tab := [];
      for j := 0 to 512
        invariant |tab| == j && forall k :: 0 <= k < j ==> tab[k] == Entry(h.present, false, h.frame + k, h.perm)
      {
        tab := tab + [Entry(h.present, false, h.frame + j, h.perm)];
      }
    }

    /** `mmu_split_huge_page_locked`. */
    method SplitHuge(w: seq<nat>) returns (ok: bool)
      requires Valid() && IsPage(w)
      modifies this
      ensures Valid() && Frames() == old(Frames()) && Same(old(tables), tables, root)
      ensures ok <==> old(Huge(tables, places, w)) && old(pool) != {}
      ensures ok ==> exists n :: At(n, w, 3)
      ensures !ok ==> tables == old(tables) && places == old(places) && pool == old(pool)
    {
      hide WellFormed, Walk, Same, Points, Huge;
      SameRefl(tables, places, root, w);
      var f := root;
      RootAt(w);
      for i := 0 to 3
        invariant At(f, w, i) && tables == old(tables) && places == old(places) && pool == old(pool)
      {
        AtFacts(f, w, i);
        PointsPlain(tables[f][w[i]], i);
        if !tables[f][w[i]].present {
          NotHuge(f, w, i);
          return false;
        }
        if i == 2 && tables[f][w[2]].huge {
          HugeFound(f, w, 2);
          if pool == {} {
            return false;
          }
          SplitAt(f, w);
          return true;
        }
        f := tables[f][w[i]].frame;
      }
      NotHuge(f, w, 3);
      return false;
    }

    method SplitAt(f: nat, w: seq<nat>)
      requires Valid() && IsPage(w) && HugeIn(tables, places, w, f) && pool != {}
      modifies this
      ensures Valid() && Frames() == old(Frames()) && Same(old(tables), tables, root)
      ensures exists n :: At(n, w, 3)
    {
      var n :| n in pool;
      var tab := PageEntries(tables[f][w[2]]);
      var e := Entry(true, false, n, Perm(true, true, 0));
      SplitStep(tables, places, root, w, f, n, tab, e);
      hide WellFormed, Walk, Same, Points;
      pool := pool - {n};
      places := places[n := Down(places[f], w[2])];
      tables := Link(tables, f, w[2], n, tab, e);
      assert At(n, w, 3);
    }

    // ----- destroying a map -----

    /** Then the entry points to a table. */
    lemma EntryTable(f: nat, i: nat, g: nat) returns (c: nat)
      requires Valid() && f in tables && UnderEntry(places, f, i, g)
      ensures PointsTo(tables, places, f, i, c) && c in tables && places[c] == Down(places[f], i)
      decreases Depth(places[g])
    {
      DepthWithin(places[g], Down(places[f], i));
      assert Pointed(tables, places, g);
      var h: nat, j: nat :| PointsTo(tables, places, h, j, g);
      assert places[g] == Down(places[h], j);
      if places[g] == Down(places[f], i) {
        c := g;
      } else {
        c := EntryTable(f, i, h);
      }
    }

    /** The tables below an entry are the one it points to and those below the entries of that one. */
    lemma ChildTables(f: nat, i: nat, c: nat, g: nat)
      requires Valid() && f in tables && c in tables && places[c] == Down(places[f], i)
      ensures UnderEntry(places, f, i, g) <==> g == c || exists j: nat :: j < 512 && UnderEntry(places, c, j, g)
    {
      if UnderEntry(places, f, i, g) && g != c {
        assert g in tables && places[g] != places[c];
        var j := StepDown(places[g], places[c]);
        var x := EntryTable(c, j, g);
        assert UnderEntry(places, c, j, g) && j < 512;
      }
      forall j: nat | UnderEntry(places, c, j, g) ensures UnderEntry(places, f, i, g) { WithinUp(places[g], places[c], j); }
    }

    /** The nested loops of `vmm_destroy_map`: the tables below the first `n` entries of `f`, then `f` itself. */
    method FreeTables(f: nat, d: nat, n: nat) returns (freed: seq<nat>)
      requires Valid() && f in tables && Depth(places[f]) == d && n <= 512
      ensures NoDup(freed) && forall g :: g in freed <==> g == f || exists i: nat :: i < n && UnderEntry(places, f, i, g)
      decreases 3 - d
    {
      hide NoDup, UnderEntry, WellFormed;
      assert |tables[f]| == 512 && d <= 3 by { TableFacts(f); }
      freed := [];
      NoDupEmpty();
      for i := 0 to n
        invariant NoDup(freed) && forall g :: g in freed <==> exists j: nat :: j < i && UnderEntry(places, f, j, g)
      {
        var e := tables[f][i];
        var sub: seq<nat> := [];
        if d < 3 && e.present && !e.huge {
          EntryChild(f, i);
          sub := FreeTables(e.frame, d + 1, 512);
          forall g: nat ensures g in sub <==> UnderEntry(places, f, i, g) { ChildTables(f, i, e.frame, g); }
        } else {
          forall g: nat ensures g in sub <==> UnderEntry(places, f, i, g) { EntryNone(f, i, g); }
        }
        JoinEntries(places, f, i, freed, sub);
        freed := freed + sub;
      }
      forall i: nat ensures !UnderEntry(places, f, i, f) { NotUnderItself(f, i); }
      AppendNoDup(freed, f);
      freed := freed + [f];
    }

    lemma TableFacts(f: nat)
      requires Valid() && f in tables
      ensures f in places && |tables[f]| == 512 && Depth(places[f]) <= 3
    {
    }

    lemma EntryChild(f: nat, i: nat)
      requires Valid() && f in tables && i < 512 && Depth(places[f]) < 3 && tables[f][i].present && !tables[f][i].huge
      ensures tables[f][i].frame in tables && tables[f][i].frame in places && places[tables[f][i].frame] == Down(places[f], i)
    {
      assert PointsTo(tables, places, f, i, tables[f][i].frame);
    }

    lemma EntryNone(f: nat, i: nat, g: nat)
      requires Valid() && f in tables && i < 512 && !(Depth(places[f]) < 3 && tables[f][i].present && !tables[f][i].huge)
      ensures !UnderEntry(places, f, i, g)
    {
      assert EntryOk(tables[f][i], Depth(places[f]));
      if UnderEntry(places, f, i, g) {
        var c := EntryTable(f, i, g);
      }
    }

    lemma NotUnderItself(f: nat, i: nat)
      ensures !UnderEntry(places, f, i, f)
    {
      if UnderEntry(places, f, i, f) { DepthWithin(places[f], Down(places[f], i)); }
    }

    /** `vmm_destroy_map`: every table of the user half is released once, and no other. */
    method Destroy() returns (freed: seq<nat>)
      requires Valid()
      ensures NoDup(freed) && forall g :: g in freed <==> g in tables && (g == root || First(places[g]) < 256)
    {
      freed := FreeTables(root, 0, 256);
      forall g: nat ensures g in freed <==> g in tables && (g == root || First(places[g]) < 256) {
        if g in places {
          forall i: nat ensures UnderEntry(places, root, i, g) <==> places[g] != Root && First(places[g]) == i { FirstIs(places[g], i); }
          assert UnderEntry(places, root, First(places[g]), g) <==> g != root;
        }
      }
    }
  }

  /** Table `g` sits at or below entry `i` of table `f`. */
  ghost predicate UnderEntry(places: Places, f: nat, i: nat, g: nat) {
    f in places && g in places && Within(places[g], Down(places[f], i))
  }

  /** The lists of tables below different entries have no table in common. */
  lemma JoinEntries(places: Places, f: nat, i: nat, freed: seq<nat>, sub: seq<nat>)
    requires NoDup(freed) && NoDup(sub) && (forall g :: g in sub <==> UnderEntry(places, f, i, g))
    requires forall g :: g in freed <==> exists j: nat :: j < i && UnderEntry(places, f, j, g)
    ensures NoDup(freed + sub) && forall g :: g in freed + sub <==> exists j: nat :: j < i + 1 && UnderEntry(places, f, j, g)
  {
    forall g | g in freed && g in sub ensures false {
      var j: nat :| j < i && UnderEntry(places, f, j, g);
      WithinOnce(places[g], places[f], i, j);
    }
    JoinNoDup(freed, sub);
    forall g ensures g in freed + sub <==> exists j: nat :: j < i + 1 && UnderEntry(places, f, j, g) {
      if exists j: nat :: j < i + 1 && UnderEntry(places, f, j, g) {
        var j: nat :| j < i + 1 && UnderEntry(places, f, j, g);
      }
    }
  }

  /** Path `p` is `q` or leads on from it. */
  predicate Within(p: Path, q: Path) {
    p == q || (p.Down? && Within(p.up, q))
  }

  /** The first index on a path. */
  function First(p: Path): nat {
    match p
    case Root => 0
    case Down(Root, i) => i
    case Down(q, _) => First(q)
  }

  lemma {:induction false} FirstIs(p: Path, i: nat)
    ensures Within(p, Down(Root, i)) <==> p != Root && First(p) == i
  {
    if p.Down? {
      FirstIs(p.up, i);
    }
  }

  lemma {:induction false} DepthWithin(p: Path, q: Path)
    requires Within(p, q)
    ensures Depth(p) >= Depth(q)
  {
    if p != q {
      DepthWithin(p.up, q);
    }
  }

  lemma {:induction false} WithinUp(p: Path, q: Path, j: nat)
    requires Within(p, Down(q, j))
    ensures Within(p, q)
  {
    if p != Down(q, j) {
      WithinUp(p.up, q, j);
    }
  }

  lemma {:induction false} StepDown(p: Path, q: Path) returns (j: nat)
    requires Within(p, q) && p != q
    ensures Within(p, Down(q, j))
  {
    if p.up == q {
      j := p.index;
    } else {
      j := StepDown(p.up, q);
    }
  }

  lemma {:induction false} WithinOnce(p: Path, q: Path, i: nat, j: nat)
    requires Within(p, Down(q, i)) && Within(p, Down(q, j))
    ensures i == j
  {
    if p == Down(q, i) || p == Down(q, j) {
      if i != j { DepthWithin(q, Down(q, if p == Down(q, i) then j else i)); }
    } else {
      WithinOnce(p.up, q, i, j);
    }
  }

  // ----- a failed map -----

  lemma RegionAt(t: Tables, t': Tables, root: nat, w: seq<nat>, e: Entry, v: seq<nat>)
    requires SetsRegion(t, t', root, w, e) && IsPage(v) && SameRegion(v, w)
    ensures Walk(t', root, 0, v) == Leaf(e, 2, v)
  {
  }

  lemma WidenedAt(t: Tables, t': Tables, root: nat, w: seq<nat>)
    requires WidensRegion(t, t', root, w) && IsPage(w)
    ensures Walk(t', root, 0, w) == WidenMapping(Walk(t, root, 0, w))
  {
  }

  lemma ThreeFrames()
    ensures |{1, 2, 3}| >= 2
  {
    assert |{1, 2, 3} - {1}| >= 1 by { assert 2 in {1, 2, 3} - {1}; }
  }

  /** A map with nothing in it and three frames for tables. */
  method ThreeFrameMap() returns (m: AddressMap)
    ensures fresh(m) && m.Valid() && Enough(m.places, |m.pool|, [0, 0, 0, 0], 2)
  {
    hide WellFormed, Walk, Enough;
    var pool: set<nat> := {1, 2, 3};
    ThreeFrames();
    m := new AddressMap(0, pool);
    m.RootEnough([0, 0, 0, 0], 2);
  }

  /** A map with a read-only huge page at address 0. */
  method ReadOnlyHuge() returns (m: AddressMap)
    ensures fresh(m) && m.Valid() && Huge(m.tables, m.places, [0, 0, 0, 5])
    ensures Walk(m.tables, m.root, 0, [0, 0, 0, 5]) == Some(517, Perm(false, true, 0))
  {
    hide WellFormed, Walk, Huge, SetsRegion, Enough;
    var huge, w := [0, 0, 0, 0], [0, 0, 0, 5];
    m := ThreeFrameMap();
    ghost var t0 := m.tables;
    var ok := m.MapHuge(huge, 512, true, Perm(false, true, 0));
    RegionAt(t0, m.tables, m.root, huge, Entry(true, true, 512, Perm(false, true, 0)), w);
    HugeAround(m.tables, m.places, huge, w);
  }

  /** A map of a page in it fails, and the huge page is writable. */
  method FailedMapWidens() returns (m: AddressMap, ok: bool, ghost before: Mapping)
    ensures fresh(m) && m.Valid() && !ok && before == Some(517, Perm(false, true, 0))
    ensures Walk(m.tables, m.root, 0, [0, 0, 0, 5]) == Some(517, Perm(true, true, 0))
  {
    hide WellFormed, Walk, Huge, WidensRegion, Enough;
    var w: seq<nat> := [0, 0, 0, 5];
    m := ReadOnlyHuge();
    ghost var t0 := m.tables;
    before := Walk(t0, m.root, 0, w);
    ok := m.Map(w, 9, true, Perm(false, true, 0));
    WidenedAt(t0, m.tables, m.root, w);
  }

  /** A huge page holds all pages of its region. */
  lemma HugeAround(t: Tables, places: Places, v: seq<nat>, w: seq<nat>)
    requires Huge(t, places, v) && SameRegion(v, w)
    ensures Huge(t, places, w)
  {
    var f: nat :| HugeIn(t, places, v, f);
    assert Prefix(w, 1) == Down(Prefix(w, 0), w[0]) && Prefix(v, 1) == Down(Prefix(v, 0), v[0]);
    assert HugeIn(t, places, w, f);
  }
}
