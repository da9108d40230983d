/** One size class of the kernel allocator (kernel/mm/kmem.c): per-CPU magazines, the depot behind them, and the chunk
    new objects are carved from. */
module Magazines {
  import opened Sequences

  const KMEM_MAG_CAPACITY := 16

  const PAGE_SIZE := 4096

  /** Where a carved object is. */
  datatype Owner = Live | Cpu(c: nat) | Depot

  type Owners = map<nat, Owner>

  /** `q` holds exactly the objects that are at `w`, each once. */
  ghost predicate Holds(q: seq<nat>, owner: Owners, w: Owner) {
    NoDup(q) && forall o :: o in q <==> o in owner && owner[o] == w
  }

  // ----- one object moves -----

  /** Object `o`, which was not at `w`, is put at `w`. */
  lemma HoldsPush(q: seq<nat>, owner: Owners, w: Owner, o: nat)
    requires Holds(q, owner, w) && (o in owner ==> owner[o] != w)
    ensures Holds(q + [o], owner[o := w], w)
  {
  }

  lemma HoldsPop(q: seq<nat>, owner: Owners, w: Owner, v: Owner)
    requires Holds(q, owner, w) && q != [] && v != w
    ensures q[|q| - 1] in owner && owner[q[|q| - 1]] == w && Holds(q[..|q| - 1], owner[q[|q| - 1] := v], w)
  {
    var o, r := q[|q| - 1], q[..|q| - 1];
    assert o in q;
    forall x ensures x in r <==> x in q && x != o {
      if x in q && x != o {
        var i :| 0 <= i < |q| && q[i] == x;
        assert r[i] == x;
      }
    }
  }

  lemma HoldsOther(q: seq<nat>, owner: Owners, w: Owner, o: nat, v: Owner)
    requires Holds(q, owner, w) && v != w && (o in owner ==> owner[o] != w)
    ensures Holds(q, owner[o := v], w)
  {
  }

  // ----- a whole magazine moves -----

  function Reassign(owner: Owners, q: seq<nat>, v: Owner): Owners {
    map o | o in owner :: if o in q then v else owner[o]
  }

  lemma HoldsMoved(q: seq<nat>, owner: Owners, w: Owner, r: seq<nat>, v: Owner)
    requires Holds(q, owner, w) && Holds(r, owner, v) && w != v
    ensures Holds([], Reassign(owner, q, v), w) && Holds(r + q, Reassign(owner, q, v), v)
  {
    var u := r + q;
    forall i, j | 0 <= i < j < |u| ensures u[i] != u[j] {
      if i < |r| <= j { assert r[i] in r && q[j - |r|] in q; }
    }
  }

  lemma HoldsSplit(r: seq<nat>, q: seq<nat>, owner: Owners, w: Owner, v: Owner)
    requires Holds(r + q, owner, w) && Holds([], owner, v) && w != v
    ensures Holds(r, Reassign(owner, q, v), w) && Holds(q, Reassign(owner, q, v), v)
  {
    var u := r + q;
    assert forall i :: 0 <= i < |r| ==> u[i] == r[i];
    assert forall i :: 0 <= i < |q| ==> u[|r| + i] == q[i];
    assert forall o :: o in u <==> o in r || o in q;
  }

  lemma HoldsAside(q: seq<nat>, owner: Owners, w: Owner, r: seq<nat>, v: Owner, x: Owner)
    requires Holds(q, owner, w) && (forall o :: o in r ==> o in owner && owner[o] == x) && x != w && v != w
    ensures Holds(q, Reassign(owner, r, v), w)
  {
  }

  // ----- the magazines of all CPUs and the depot -----

  /** A CPU's magazine pointer: none yet, or a magazine with the objects in its slots. */
  datatype Mag = None | Some(slots: seq<nat>)

  function Slots(m: Mag): seq<nat> {
    if m.None? then [] else m.slots
  }

  /** The objects of a list of magazines. */
  function Flat(mags: seq<seq<nat>>): seq<nat> {
    if mags == [] then [] else Flat(mags[..|mags| - 1]) + mags[|mags| - 1]
  }

  ghost predicate CpusHold(mags: seq<Mag>, owner: Owners) {
    && (forall c :: 0 <= c < |mags| ==> |Slots(mags[c])| <= KMEM_MAG_CAPACITY && Holds(Slots(mags[c]), owner, Cpu(c)))
    && forall o :: o in owner && owner[o].Cpu? ==> owner[o].c < |mags|
  }

  /** The depot's lists hold only full and only empty magazines. */
  ghost predicate DepotHolds(full: seq<seq<nat>>, empty: seq<seq<nat>>, owner: Owners) {
    && Holds(Flat(full), owner, Depot)
    && (forall i :: 0 <= i < |full| ==> |full[i]| == KMEM_MAG_CAPACITY)
    && forall i :: 0 <= i < |empty| ==> empty[i] == []
  }

  /** One CPU's magazine changes together with the owner of one object. */
  lemma CpuStep(mags: seq<Mag>, owner: Owners, c: nat, m: Mag, o: nat, v: Owner)
    requires CpusHold(mags, owner) && c < |mags| && |Slots(m)| <= KMEM_MAG_CAPACITY
    requires Holds(Slots(m), owner[o := v], Cpu(c)) && (v.Cpu? ==> v.c == c) && (o in owner && owner[o].Cpu? ==> owner[o].c == c)
    ensures CpusHold(mags[c := m], owner[o := v])
  {
    forall d | 0 <= d < |mags| && d != c ensures Holds(Slots(mags[d]), owner[o := v], Cpu(d)) {
      HoldsOther(Slots(mags[d]), owner, Cpu(d), o, v);
    }
  }

  /** A magazine moves between CPU `c` and the depot. */
  lemma CpuSwap(mags: seq<Mag>, owner: Owners, c: nat, m: Mag, q: seq<nat>, x: Owner, v: Owner)
    requires CpusHold(mags, owner) && c < |mags| && |Slots(m)| <= KMEM_MAG_CAPACITY
    requires {x, v} == {Cpu(c), Depot} && (forall o :: o in q ==> o in owner && owner[o] == x)
    requires Holds(Slots(m), Reassign(owner, q, v), Cpu(c))
    ensures CpusHold(mags[c := m], Reassign(owner, q, v))
  {
    assert x in {Cpu(c), Depot} && v in {Cpu(c), Depot};
    forall d | 0 <= d < |mags| && d != c ensures Holds(Slots(mags[d]), Reassign(owner, q, v), Cpu(d)) {
      HoldsAside(Slots(mags[d]), owner, Cpu(d), q, v, x);
    }
  }

  // ----- addresses -----

  /** Which size of object each page of the allocator's memory is cut into. */
  type Pages = map<nat, nat>

  /** Every page the range touches is cut into objects of that size. */
  ghost predicate InPages(pages: Pages, lo: nat, hi: nat, size: nat) {
    forall a: nat :: lo <= a < hi ==> a / PAGE_SIZE in pages && pages[a / PAGE_SIZE] == size
  }

  predicate Apart(a: nat, n: nat, b: nat, m: nat) {
    a + n <= b || b + m <= a
  }

  /** Carved objects lie in pages of their size, do not overlap, and do not reach into what is left of the chunk. */
  ghost predicate Carved(owner: Owners, pages: Pages, size: nat, chunk: nat, end: nat) {
    && chunk <= end && InPages(pages, chunk, end, size)
    && (forall o :: o in owner ==> o > 0 && InPages(pages, o, o + size, size) && Apart(o, size, chunk, end - chunk))
    && forall o, p :: o in owner && p in owner && o != p ==> Apart(o, size, p, size)
  }

  lemma CarveNext(owner: Owners, pages: Pages, size: nat, chunk: nat, end: nat, w: Owner)
    requires Carved(owner, pages, size, chunk, end) && chunk > 0 && size > 0 && chunk + size <= end
    ensures chunk !in owner && Carved(owner[chunk := w], pages, size, chunk + size, end)
  {
  }

  lemma CarveSame(owner: Owners, owner': Owners, pages: Pages, size: nat, chunk: nat, end: nat)
    requires Carved(owner, pages, size, chunk, end) && owner'.Keys == owner.Keys
    ensures Carved(owner', pages, size, chunk, end)
  {
  }

  /** A new chunk in fresh pages. */
  lemma CarveChunk(owner: Owners, pages: Pages, pages': Pages, size: nat, chunk: nat, lo: nat, hi: nat)
    requires Carved(owner, pages, size, chunk, chunk) && lo < hi && size > 0 && InPages(pages', lo, hi, size)
    requires forall p :: p in pages ==> p in pages' && pages'[p] == pages[p]
    requires forall a: nat :: lo <= a < hi ==> a / PAGE_SIZE !in pages
    ensures Carved(owner, pages', size, lo, hi)
  {
    forall o | o in owner ensures Apart(o, size, lo, hi - lo) {
      var a := if o >= lo then o else lo;
      assert o <= a < o + size ==> a / PAGE_SIZE in pages;
      assert lo <= a < hi ==> a / PAGE_SIZE !in pages;
    }
  }

  /** Pages of other sizes may come and go. */
  lemma CarveKept(owner: Owners, pages: Pages, pages': Pages, size: nat, chunk: nat, end: nat)
    requires Carved(owner, pages, size, chunk, end) && KeepsSize(pages, pages', size)
    ensures Carved(owner, pages', size, chunk, end)
  {
  }

  /** The pages cut into `size` are still there. */
  ghost predicate KeepsSize(pages: Pages, pages': Pages, size: nat) {
    forall p :: p in pages && pages[p] == size ==> p in pages' && pages'[p] == size
  }
}
