/** Sequences without repetition. */
module Sequences {

  predicate NoDup(q: seq<nat>) {
    forall i, j :: 0 <= i < j < |q| ==> q[i] != q[j]
  }

  lemma JoinNoDup(a: seq<nat>, b: seq<nat>)
    requires NoDup(a) && NoDup(b) && forall u :: !(u in a && u in b)
    ensures NoDup(a + b)
  {
    var q := a + b;
    forall i, j | 0 <= i < j < |q| ensures q[i] != q[j] {
      if i < |a| <= j { assert a[i] in a && b[j - |a|] in b; }
    }
  }

  lemma AppendNoDup(a: seq<nat>, x: nat)
    requires NoDup(a) && x !in a
    ensures NoDup(a + [x])
  {
  }

  lemma NoDupEmpty()
    ensures NoDup([])
  {
  }
}
