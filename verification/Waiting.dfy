/** How long threads have waited: `tries` lists the threads that tried to lock, in the order in which they did. */
module Waiting {
  /** When thread `t` tried last. */
  function Since(tries: seq<nat>, t: nat): (n: nat)
    ensures n <= |tries|
  {
    if tries == [] then 0
    else if tries[|tries| - 1] == t then |tries|
    else Since(tries[..|tries| - 1], t)
  }

  /** Of the threads in `waiting`, `u` has waited longest. */
  ghost predicate Longest(tries: seq<nat>, waiting: set<nat>, u: nat) {
    u in waiting && forall v :: v in waiting && v != u ==> Since(tries, u) < Since(tries, v)
  }

  ghost predicate Ordered(tries: seq<nat>, q: seq<nat>) {
    forall i, j :: 0 <= i < j < |q| ==> Since(tries, q[i]) < Since(tries, q[j])
  }

  /** A thread that tries and joins the end of a queue, or does not join it, leaves it in order. */
  lemma TryOrdered(tries: seq<nat>, q: seq<nat>, t: nat)
    requires Ordered(tries, q) && t !in q
    ensures Ordered(tries + [t], q) && Ordered(tries + [t], q + [t])
  {
    assert (tries + [t])[..|tries|] == tries;
  }

  /** The first of an ordered queue has waited longest. */
  lemma FirstLongest(tries: seq<nat>, q: seq<nat>, waiting: set<nat>)
    requires Ordered(tries, q) && q != [] && forall t :: t in waiting <==> t in q
    ensures Longest(tries, waiting, q[0])
  {
    forall v | v in waiting && v != q[0] ensures Since(tries, q[0]) < Since(tries, v) {
      var i :| 0 <= i < |q| && q[i] == v;
    }
  }
}
