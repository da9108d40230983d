/** The address space a process sees through its VMA list: a sequence of ranges in address order,
    read as a map from addresses to what backs them. */
module VmaView {

  datatype Range = Range(start: nat, end: nat, flags: nat, vn: nat, offset: int)

  /** What backs one address: protection flags, vnode and the offset inside it. */
  datatype Backing = Unmapped | Mapped(flags: nat, vn: nat, offset: int)

  predicate Covers(r: Range, a: nat) {
    r.start <= a < r.end
  }

  /** Linear scan. */
  function At(v: seq<Range>, a: nat): Backing {
    if v == [] then Unmapped
    else if Covers(v[0], a) then Mapped(v[0].flags, v[0].vn, v[0].offset + (a - v[0].start))
    else At(v[1..], a)
  }

  /** Non-empty ranges in address order that do not overlap. */
  ghost predicate Disjoint(v: seq<Range>) {
    && (forall i :: 0 <= i < |v| ==> v[i].start < v[i].end)
    && (forall i, j :: 0 <= i < j < |v| ==> v[i].end <= v[j].start)
  }

  lemma {:induction false} AtConcat(u: seq<Range>, w: seq<Range>, a: nat)
    ensures At(u + w, a) == if At(u, a).Mapped? then At(u, a) else At(w, a)
  {
    if u == [] {
      assert u + w == w;
    } else {
      AtConcat(u[1..], w, a);
      assert (u + w)[1..] == u[1..] + w;
    }
  }

  lemma {:induction false} AtUnmapped(v: seq<Range>, a: nat)
    ensures At(v, a) == Unmapped <==> forall i :: 0 <= i < |v| ==> !Covers(v[i], a)
  {
    if v != [] {
      AtUnmapped(v[1..], a);
      assert forall i :: 1 <= i < |v| ==> v[i] == v[1..][i - 1];
    }
  }

  /** In a disjoint view the range that covers an address decides what backs it. */
  lemma {:induction false} AtIndex(v: seq<Range>, i: nat, a: nat)
    requires Disjoint(v) && i < |v| && Covers(v[i], a)
    ensures At(v, a) == Mapped(v[i].flags, v[i].vn, v[i].offset + (a - v[i].start))
  {
    if i > 0 {
      AtIndex(v[1..], i - 1, a);
    }
  }

  // ----- split, erase, merge -----

  function SplitAt(v: seq<Range>, i: nat, addr: nat): seq<Range>
    requires i < |v|
  {
    var r := v[i];
    v[..i] + [r.(end := addr), r.(start := addr, offset := r.offset + (addr - r.start))] + v[i + 1..]
  }

  /** Splitting is shortening the range and inserting the rest behind it. */
  lemma SplitIsInsert(v: seq<Range>, i: nat, addr: nat)
    requires i < |v|
    ensures var w, r := v[i := v[i].(end := addr)], v[i];
            SplitAt(v, i, addr) == w[..i + 1] + [r.(start := addr, offset := r.offset + (addr - r.start))] + w[i + 1..]
  {
    var w := v[i := v[i].(end := addr)];
    assert w[..i + 1] == v[..i] + [w[i]] && w[i + 1..] == v[i + 1..];
  }

  /** Splitting a range changes no address. */
  lemma {:induction false} SplitSame(v: seq<Range>, i: nat, addr: nat, a: nat)
    requires i < |v| && v[i].start < addr < v[i].end
    ensures At(SplitAt(v, i, addr), a) == At(v, a)
  {
    var r := v[i];
    var l, h := r.(end := addr), r.(start := addr, offset := r.offset + (addr - r.start));
    assert v == v[..i] + ([r] + v[i + 1..]);
    assert SplitAt(v, i, addr) == v[..i] + ([l, h] + v[i + 1..]);
    AtConcat(v[..i], [r] + v[i + 1..], a);
    AtConcat(v[..i], [l, h] + v[i + 1..], a);
    AtConcat([r], v[i + 1..], a);
    AtConcat([l, h], v[i + 1..], a);
    assert [l, h][1..] == [h];
  }

  lemma SplitDisjoint(v: seq<Range>, i: nat, addr: nat)
    requires Disjoint(v) && i < |v| && v[i].start < addr < v[i].end
    ensures Disjoint(SplitAt(v, i, addr))
  {
    var w := SplitAt(v, i, addr);
    assert forall k :: 0 <= k < i ==> w[k] == v[k];
    assert forall k :: i + 2 <= k < |w| ==> w[k] == v[k - 1];
  }

  function EraseAt(v: seq<Range>, i: nat): seq<Range>
    requires i < |v|
  {
    v[..i] + v[i + 1..]
  }

  /** Erasing a range unmaps its addresses and no others. */
  lemma {:induction false} EraseExact(v: seq<Range>, i: nat, a: nat)
    requires Disjoint(v) && i < |v|
    ensures At(EraseAt(v, i), a) == if Covers(v[i], a) then Unmapped else At(v, a)
  {
    assert v == v[..i] + ([v[i]] + v[i + 1..]);
    AtConcat(v[..i], [v[i]] + v[i + 1..], a);
    AtConcat([v[i]], v[i + 1..], a);
    AtConcat(v[..i], v[i + 1..], a);
    if Covers(v[i], a) {
      AtUnmapped(v[..i], a);
      AtUnmapped(v[i + 1..], a);
    } else {
      assert At([v[i]], a) == Unmapped;
    }
  }

  lemma EraseDisjoint(v: seq<Range>, i: nat)
    requires Disjoint(v) && i < |v|
    ensures Disjoint(EraseAt(v, i))
  {
    var w := EraseAt(v, i);
    assert forall k :: 0 <= k < |w| ==> w[k] == v[if k < i then k else k + 1];
  }

  /** Neighbours with the same backing, the second continuing where the first ends. */
  predicate Mergeable(l: Range, h: Range) {
    l.end == h.start && l.flags == h.flags && l.vn == h.vn && l.offset + (l.end - l.start) == h.offset
  }

  function MergeAt(v: seq<Range>, i: nat): seq<Range>
    requires i + 1 < |v|
  {
    v[..i] + [v[i].(end := v[i + 1].end)] + v[i + 2..]
  }

  /** Merging is extending the first range and erasing the second. */
  lemma MergeIsErase(v: seq<Range>, i: nat)
    requires i + 1 < |v|
    ensures EraseAt(v[i := v[i].(end := v[i + 1].end)], i + 1) == MergeAt(v, i)
  {
    var w := v[i := v[i].(end := v[i + 1].end)];
    assert w[..i + 1] == v[..i] + [w[i]] && w[i + 2..] == v[i + 2..];
  }

  lemma MergeDisjoint(v: seq<Range>, i: nat)
    requires Disjoint(v) && i + 1 < |v|
    ensures Disjoint(MergeAt(v, i))
  {
    var w := MergeAt(v, i);
    assert forall k :: 0 <= k < i ==> w[k] == v[k];
    assert forall k :: i < k < |w| ==> w[k] == v[k + 1];
  }

  /** Merging undoes a split. */
  lemma MergeSplit(v: seq<Range>, i: nat)
    requires Disjoint(v) && i + 1 < |v| && Mergeable(v[i], v[i + 1])
    ensures v[i].start < v[i].end < MergeAt(v, i)[i].end
    ensures SplitAt(MergeAt(v, i), i, v[i].end) == v
  {
    var w := MergeAt(v, i);
    assert w[..i] == v[..i] && w[i + 1..] == v[i + 2..];
    assert v == v[..i] + [v[i], v[i + 1]] + v[i + 2..];
  }

  lemma MergeSame(v: seq<Range>, i: nat, a: nat)
    requires Disjoint(v) && i + 1 < |v| && Mergeable(v[i], v[i + 1])
    ensures At(MergeAt(v, i), a) == At(v, a)
  {
    MergeSplit(v, i);
    SplitSame(MergeAt(v, i), i, v[i].end, a);
  }

  /** The backing of address `a` goes on from that of the address below it. */
  predicate Continues(v: seq<Range>, a: nat) {
    a > 0 && At(v, a - 1).Mapped? &&
    At(v, a) == Mapped(At(v, a - 1).flags, At(v, a - 1).vn, At(v, a - 1).offset + 1)
  }

  /** The range below the range at `k` if its backing goes on into that. */
  function First(v: seq<Range>, k: nat): nat
    requires k < |v|
  {
    if k > 0 && Continues(v, v[k].start) then k - 1 else k
  }

  /** The range above the range at `k` if that one's backing goes on into it. */
  function Last(v: seq<Range>, k: nat): (r: nat)
    requires k < |v|
    ensures r < |v|
  {
    if k + 1 < |v| && Continues(v, v[k].end) then k + 1 else k
  }

  /** `w` is `v` with the range at `k` grown, down to the start of the range below it exactly when that one's backing
      goes on into it, and up to the end of the range above it exactly when its backing goes on into that one; the
      ranges so absorbed are gone and all others are the same. */
  predicate Grown(v: seq<Range>, w: seq<Range>, k: nat)
    requires k < |v|
  {
    var first, last := First(v, k), Last(v, k);
    w == v[..first] + [Range(v[first].start, v[last].end, v[k].flags, v[k].vn, v[first].offset)] + v[last + 1..]
  }

  /** Merging the ranges `i` and `i + 1` of `v`, where `v` has been merged at `i + 1` before. */
  lemma MergeTwice(v: seq<Range>, i: nat)
    requires i + 2 < |v|
    ensures |MergeAt(v, i + 1)| == |v| - 1
    ensures MergeAt(MergeAt(v, i + 1), i) == v[..i] + [v[i].(end := v[i + 2].end)] + v[i + 3..]
  {
    var w := MergeAt(v, i + 1);
    assert w[i] == v[i] && w[i + 1].end == v[i + 2].end && w[..i] == v[..i] && w[i + 2..] == v[i + 3..];
  }

  lemma ContinuesAtEnd(v: seq<Range>, k: nat)
    requires Disjoint(v) && k < |v|
    ensures k + 1 < |v| ==> (Continues(v, v[k].end) <==> Mergeable(v[k], v[k + 1]))
    ensures k + 1 == |v| ==> !Continues(v, v[k].end)
  {
    var a := v[k].end;
    AtIndex(v, k, a - 1);
    if k + 1 < |v| && v[k + 1].start == a {
      AtIndex(v, k + 1, a);
    } else {
      assert k + 1 < |v| ==> a < v[k + 1].start;
      assert forall i :: k + 1 < i < |v| ==> v[k + 1].end <= v[i].start;
      assert forall i :: 0 <= i < k ==> v[i].end <= v[k].start;
      AtUnmapped(v, a);
    }
  }

  lemma ContinuesAtStart(v: seq<Range>, k: nat)
    requires Disjoint(v) && k < |v|
    ensures k > 0 ==> (Continues(v, v[k].start) <==> Mergeable(v[k - 1], v[k]))
    ensures k == 0 ==> !Continues(v, v[k].start)
  {
    var a := v[k].start;
    AtIndex(v, k, a);
    if k > 0 && v[k - 1].end == a {
      ContinuesAtEnd(v, k - 1);
    } else if a > 0 {
      assert k > 0 ==> v[k - 1].end < a;
      assert forall i :: 0 <= i < k - 1 ==> v[i].end <= v[k - 1].start;
      assert forall i :: k < i < |v| ==> v[k].end <= v[i].start;
      AtUnmapped(v, a - 1);
    }
  }

  // ----- unmapping a stretch -----

  /** The range reaches strictly across both ends of the stretch. */
  predicate Straddles(r: Range, start: nat, end: nat) {
    r.start < start && r.start < end && start < r.end && end < r.end
  }

  ghost predicate HasStraddler(v: seq<Range>, start: nat, end: nat) {
    exists i :: 0 <= i < |v| && Straddles(v[i], start, end)
  }

  /** Where the hole that `vma_remove_range` leaves ends: at `end`, unless one range straddles the
      stretch, whose tail then goes as well. */
  ghost function HoleEnd(v: seq<Range>, start: nat, end: nat): nat {
    if HasStraddler(v, start, end) then
      var i :| 0 <= i < |v| && Straddles(v[i], start, end);
      v[i].end
    else end
  }

  lemma StraddlerUnique(v: seq<Range>, start: nat, end: nat, i: nat)
    requires Disjoint(v) && i < |v| && Straddles(v[i], start, end)
    ensures HoleEnd(v, start, end) == v[i].end
  {
    var j :| 0 <= j < |v| && Straddles(v[j], start, end) && HoleEnd(v, start, end) == v[j].end;
    assert i < j ==> v[i].end <= v[j].start;
    assert j < i ==> v[j].end <= v[i].start;
  }

  /** The loop invariant of `vma_remove_range`: `v` against the view `v0` at the start. */
  ghost predicate RemoveInv(v0: seq<Range>, v: seq<Range>, start: nat, end: nat) {
    var h := HoleEnd(v0, start, end);
    && Disjoint(v)
    && (forall a: nat :: a < start || h <= a ==> At(v, a) == At(v0, a))
    && (forall a: nat :: At(v, a) == Unmapped || At(v, a) == At(v0, a))
    && (HasStraddler(v, start, end) ==> v == v0)
    && (!HasStraddler(v, start, end) ==> forall a: nat :: start <= a && end <= a < h ==> At(v, a) == Unmapped)
  }

  /** One turn erased exactly the addresses `[x0, x1)`. */
  ghost predicate Erases(v: seq<Range>, v': seq<Range>, x0: nat, x1: nat) {
    Disjoint(v') && Unmaps(v, v', x0, x1)
  }

  lemma RemoveStep(v0: seq<Range>, v: seq<Range>, v': seq<Range>, start: nat, end: nat, x0: nat, x1: nat)
    requires RemoveInv(v0, v, start, end) && Erases(v, v', x0, x1)
    requires start <= x0 < x1 <= HoleEnd(v0, start, end) && (x0 <= start || x0 <= end)
    requires HasStraddler(v, start, end) ==> x1 == HoleEnd(v0, start, end)
    ensures RemoveInv(v0, v', start, end)
  {
    assert !HasStraddler(v', start, end) by {
      assert At(v', x0) == Unmapped;
      AtUnmapped(v', x0);
    }
  }

  /** The range a turn of the loop works on: the first that ends above `start`, if it begins below `end`. */
  ghost predicate Next(v: seq<Range>, start: nat, end: nat, k: nat) {
    && k < |v| && start < v[k].end && v[k].start < end
    && forall i :: 0 <= i < k ==> v[i].end <= start
  }

  /** The allocations the turn needs are granted: one if the range reaches beyond the stretch on either side, two if
      it does on both. */
  predicate Granted(r: Range, start: nat, end: nat, first: bool, second: bool) {
    && (r.start < start || end < r.end ==> first)
    && (r.start < start < end < r.end ==> second)
  }

  /** No address outside the hole changes, and inside it addresses are unmapped or as they were. */
  ghost predicate UnmapsPart(v0: seq<Range>, v: seq<Range>, lo: nat, hi: nat) {
    forall a: nat :: At(v, a) == At(v0, a) || (lo <= a < hi && At(v, a) == Unmapped)
  }

  ghost predicate SameBacking(v: seq<Range>, w: seq<Range>) {
    forall a: nat :: At(w, a) == At(v, a)
  }

  /** `v` is `v0` without the addresses from `lo` up to `hi`, and otherwise the same. */
  ghost predicate Unmaps(v0: seq<Range>, v: seq<Range>, lo: nat, hi: nat) {
    forall a: nat :: At(v, a) == if lo <= a < hi then Unmapped else At(v0, a)
  }

  /** The loop stops when the first range that ends above `start` (at index `k`) does not begin
      below `end`. */
  lemma RemoveDone(v0: seq<Range>, v: seq<Range>, start: nat, end: nat, k: nat)
    requires RemoveInv(v0, v, start, end) && k <= |v|
    requires forall i :: 0 <= i < k ==> v[i].end <= start
    requires k < |v| ==> end <= v[k].start
    ensures Unmaps(v0, v, start, HoleEnd(v0, start, end))
  {
    assert forall i :: k <= i < |v| ==> end <= v[i].start;
    assert !HasStraddler(v, start, end);
    forall a: nat | start <= a < end ensures At(v, a) == Unmapped {
      AtUnmapped(v, a);
    }
  }

  /** Unmapping does what its name says exactly when no range straddles the stretch. */
  lemma RemoveExactIff(v0: seq<Range>, v: seq<Range>, start: nat, end: nat)
    requires Disjoint(v0)
    requires Unmaps(v0, v, start, HoleEnd(v0, start, end))
    ensures Unmaps(v0, v, start, end) <==> !HasStraddler(v0, start, end)
  {
    if HasStraddler(v0, start, end) {
      var i :| 0 <= i < |v0| && Straddles(v0[i], start, end);
      StraddlerUnique(v0, start, end, i);
      var a := if start <= end then end else start;
      AtIndex(v0, i, a);
      assert At(v, a) == Unmapped && At(v0, a) != Unmapped;
    }
  }

  /** For instance: of one range [0, 3), unmapping [1, 2) also unmaps address 2. */
  lemma TailLost(v: seq<Range>)
    requires var v0 := [Range(0, 3, 1, 0, 0)]; Unmaps(v0, v, 1, HoleEnd(v0, 1, 2))
    ensures At([Range(0, 3, 1, 0, 0)], 2) != Unmapped && At(v, 2) == Unmapped
  {
    var v0 := [Range(0, 3, 1, 0, 0)];
    assert Straddles(v0[0], 1, 2);
    StraddlerUnique(v0, 1, 2, 0);
  }

  /** How much is mapped from `start` upwards: the measure of the loop. */
  ghost function MappedFrom(v: seq<Range>, start: nat): nat {
    if v == [] then 0
    else (if v[0].end <= start then 0 else if v[0].start < start then v[0].end - start
          else if v[0].start <= v[0].end then v[0].end - v[0].start else 0)
         + MappedFrom(v[1..], start)
  }

  lemma {:induction false} MappedConcat(u: seq<Range>, w: seq<Range>, start: nat)
    ensures MappedFrom(u + w, start) == MappedFrom(u, start) + MappedFrom(w, start)
  {
    if u == [] {
      assert u + w == w;
    } else {
      MappedConcat(u[1..], w, start);
      assert (u + w)[1..] == u[1..] + w;
    }
  }

  lemma {:induction false} MappedSplit(v: seq<Range>, i: nat, addr: nat, start: nat)
    requires i < |v| && v[i].start < addr < v[i].end && start <= addr
    ensures MappedFrom(SplitAt(v, i, addr), start) == MappedFrom(v, start)
  {
    var r := v[i];
    var l, h := r.(end := addr), r.(start := addr, offset := r.offset + (addr - r.start));
    assert v == v[..i] + ([r] + v[i + 1..]);
    assert SplitAt(v, i, addr) == v[..i] + ([l] + ([h] + v[i + 1..]));
    MappedConcat(v[..i], [r] + v[i + 1..], start);
    MappedConcat(v[..i], [l] + ([h] + v[i + 1..]), start);
    MappedConcat([r], v[i + 1..], start);
    MappedConcat([l], [h] + v[i + 1..], start);
    MappedConcat([h], v[i + 1..], start);
  }

  lemma {:induction false} MappedErase(v: seq<Range>, i: nat, start: nat)
    requires i < |v| && start <= v[i].start < v[i].end
    ensures MappedFrom(EraseAt(v, i), start) < MappedFrom(v, start)
  {
    assert v == v[..i] + ([v[i]] + v[i + 1..]);
    MappedConcat(v[..i], [v[i]] + v[i + 1..], start);
    MappedConcat([v[i]], v[i + 1..], start);
    MappedConcat(v[..i], v[i + 1..], start);
  }

  // ----- the ways one turn of the loop erases -----

  lemma {:induction false} ErasesWhole(v: seq<Range>, k: nat, start: nat)
    requires Disjoint(v) && k < |v| && start <= v[k].start
    ensures Erases(v, EraseAt(v, k), v[k].start, v[k].end)
    ensures MappedFrom(EraseAt(v, k), start) < MappedFrom(v, start)
  {
    EraseDisjoint(v, k);
    MappedErase(v, k, start);
    forall a: nat { EraseExact(v, k, a); }
  }

  /** Split at `addr`, then erase the upper piece. */
  lemma {:induction false} ErasesTail(v: seq<Range>, k: nat, addr: nat, start: nat)
    requires Disjoint(v) && k < |v| && v[k].start < addr < v[k].end && start <= addr
    ensures Erases(v, EraseAt(SplitAt(v, k, addr), k + 1), addr, v[k].end)
    ensures MappedFrom(EraseAt(SplitAt(v, k, addr), k + 1), start) < MappedFrom(v, start)
  {
    SplitDisjoint(v, k, addr);
    MappedSplit(v, k, addr, start);
    forall a: nat { SplitSame(v, k, addr, a); }
    ErasesWhole(SplitAt(v, k, addr), k + 1, start);
  }

  /** Split at `addr`, then erase the lower piece. */
  lemma {:induction false} ErasesHead(v: seq<Range>, k: nat, addr: nat, start: nat)
    requires Disjoint(v) && k < |v| && start <= v[k].start < addr < v[k].end
    ensures Erases(v, EraseAt(SplitAt(v, k, addr), k), v[k].start, addr)
    ensures MappedFrom(EraseAt(SplitAt(v, k, addr), k), start) < MappedFrom(v, start)
  {
    SplitDisjoint(v, k, addr);
    MappedSplit(v, k, addr, start);
    forall a: nat { SplitSame(v, k, addr, a); }
    ErasesWhole(SplitAt(v, k, addr), k, start);
  }

  /** Split at `start` and at `end`, then erase the piece above `end`: the middle stays for the next turn. */
  lemma {:induction false} ErasesAbove(v: seq<Range>, k: nat, start: nat, end: nat)
    requires Disjoint(v) && k < |v| && v[k].start < start < end < v[k].end
    ensures Erases(v, EraseAt(SplitAt(SplitAt(v, k, start), k + 1, end), k + 2), end, v[k].end)
    ensures MappedFrom(EraseAt(SplitAt(SplitAt(v, k, start), k + 1, end), k + 2), start) < MappedFrom(v, start)
  {
    SplitDisjoint(v, k, start);
    MappedSplit(v, k, start, start);
    forall a: nat { SplitSame(v, k, start, a); }
    ErasesTail(SplitAt(v, k, start), k + 1, end, start);
  }

  /** A straddling range is the first that ends above `start`. */
  lemma StraddlerFirst(v: seq<Range>, start: nat, end: nat, k: nat)
    requires Disjoint(v) && k < |v| && start < v[k].end && HasStraddler(v, start, end)
    requires forall i :: 0 <= i < k ==> v[i].end <= start
    ensures Straddles(v[k], start, end)
  {
    var i :| 0 <= i < |v| && Straddles(v[i], start, end);
    assert i >= k;
  }
}
