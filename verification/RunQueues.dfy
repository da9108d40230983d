/** The per-CPU multilevel feedback queues (kernel/proc/sched.c): their invariant, what each operation does to them, and
    how long a thread at the top level can wait. */
module RunQueues {
  import opened Division
  import opened Sequences

  const MLFQ_LEVELS := 4

  /** The time slice of each level. */
  const SLICES: seq<nat> := [5, 10, 20, 40]

  /** The fields of `struct thread` the scheduler uses. */
  datatype Thread = Thread(cpu: nat, priority: int, slice: nat, ticks: nat)

  type Threads = map<nat, Thread>

  /** The queues of one CPU, first in line first, and the length kept beside them. */
  datatype Mlfq = Mlfq(levels: seq<seq<nat>>, count: int)

  datatype State = State(cpus: seq<Mlfq>, threads: Threads)

  // ----- the invariant -----

  /** Thread `t` belongs in level `p` of CPU `c`. */
  predicate Belongs(threads: Threads, t: nat, c: nat, p: nat) {
    t != 0 && t in threads && threads[t].cpu == c && threads[t].priority == p
  }

  /** Queue `p` of CPU `c` holds threads of that priority and CPU, each once. */
  predicate LevelOk(threads: Threads, q: seq<nat>, c: nat, p: nat) {
    NoDup(q) && forall i :: 0 <= i < |q| ==> Belongs(threads, q[i], c, p)
  }

  predicate MlfqOk(threads: Threads, m: Mlfq, c: nat) {
    && |m.levels| == MLFQ_LEVELS
    && m.count == |m.levels[0]| + |m.levels[1]| + |m.levels[2]| + |m.levels[3]|
    && forall p :: 0 <= p < MLFQ_LEVELS ==> LevelOk(threads, m.levels[p], c, p)
  }

  predicate Inv(s: State) {
    |s.cpus| > 0 && forall c :: 0 <= c < |s.cpus| ==> MlfqOk(s.threads, s.cpus[c], c)
  }

  /** Thread `t` stands in queue `p` of CPU `c`. */
  predicate In(s: State, t: nat, c: nat, p: nat) {
    c < |s.cpus| && p < |s.cpus[c].levels| && t in s.cpus[c].levels[p]
  }

  ghost predicate Queued(s: State, t: nat) {
    exists c: nat, p: nat :: In(s, t, c, p)
  }

  /** A thread is queued in one place only. */
  lemma InOnce(s: State, t: nat, c: nat, p: nat, d: nat, q: nat)
    requires Inv(s) && In(s, t, c, p) && In(s, t, d, q)
    ensures c == d && p == q
  {
    assert MlfqOk(s.threads, s.cpus[c], c) && MlfqOk(s.threads, s.cpus[d], d);
    assert LevelOk(s.threads, s.cpus[c].levels[p], c, p) && LevelOk(s.threads, s.cpus[d].levels[q], d, q);
  }

  // ----- one queue changes -----

  function SetLevel(s: State, c: nat, p: nat, q: seq<nat>, count: int): State
    requires c < |s.cpus| && p < |s.cpus[c].levels|
  {
    s.(cpus := s.cpus[c := Mlfq(s.cpus[c].levels[p := q], count)])
  }

  lemma OtherThread(threads: Threads, threads': Threads, q: seq<nat>, c: nat, p: nat)
    requires LevelOk(threads, q, c, p)
    requires forall i :: 0 <= i < |q| ==> q[i] in threads' && threads'[q[i]].cpu == threads[q[i]].cpu && threads'[q[i]].priority == threads[q[i]].priority
    ensures LevelOk(threads', q, c, p)
  {
    forall i | 0 <= i < |q| ensures Belongs(threads', q[i], c, p) { assert Belongs(threads, q[i], c, p); }
  }

  /** A thread that is in no queue may change as it likes. */
  lemma ThreadChange(s: State, t: nat, r: Thread)
    requires Inv(s) && !Queued(s, t)
    ensures Inv(s.(threads := s.threads[t := r]))
  {
    forall c: nat, p: nat | c < |s.cpus| && p < MLFQ_LEVELS ensures LevelOk(s.threads[t := r], s.cpus[c].levels[p], c, p) {
      var q := s.cpus[c].levels[p];
      assert MlfqOk(s.threads, s.cpus[c], c) && LevelOk(s.threads, q, c, p);
      forall i | 0 <= i < |q| ensures q[i] != t && Belongs(s.threads, q[i], c, p) { assert In(s, q[i], c, p); }
      OtherThread(s.threads, s.threads[t := r], q, c, p);
    }
    Rebuild(s, s.(threads := s.threads[t := r]));
  }

  lemma Rebuild(s: State, s': State)
    requires Inv(s) && s'.cpus == s.cpus
    requires forall c: nat, p: nat :: c < |s.cpus| && p < MLFQ_LEVELS ==> p < |s.cpus[c].levels| && LevelOk(s'.threads, s.cpus[c].levels[p], c, p)
    ensures Inv(s')
  {
    forall c: nat | c < |s.cpus| ensures MlfqOk(s'.threads, s'.cpus[c], c) {
      assert MlfqOk(s.threads, s.cpus[c], c);
    }
  }

  lemma LevelChange(s: State, c: nat, p: nat, q: seq<nat>, count: int)
    requires Inv(s) && c < |s.cpus| && p < MLFQ_LEVELS && p < |s.cpus[c].levels| && LevelOk(s.threads, q, c, p)
    requires count == s.cpus[c].count + |q| - |s.cpus[c].levels[p]|
    ensures Inv(SetLevel(s, c, p, q, count))
  {
    var m := s.cpus[c];
    assert MlfqOk(s.threads, m, c);
    var s' := SetLevel(s, c, p, q, count);
    assert MlfqOk(s.threads, s'.cpus[c], c) by {
      var levels := m.levels[p := q];
      assert forall r :: 0 <= r < MLFQ_LEVELS ==> LevelOk(s.threads, levels[r], c, r);
    }
    forall d | 0 <= d < |s.cpus| ensures MlfqOk(s.threads, s'.cpus[d], d) {
      assert MlfqOk(s.threads, s.cpus[d], d);
    }
  }

  // ----- enqueue -----

  /** The CPU and the level `sched_enqueue` chooses, called on CPU `me`. */
  function TargetCpu(s: State, t: nat, me: nat): nat
    requires t in s.threads
  {
    if s.threads[t].cpu >= |s.cpus| then me else s.threads[t].cpu
  }

  function TargetLevel(priority: int): nat {
    if priority < 0 || priority >= MLFQ_LEVELS then 0 else priority
  }

  function Enqueue(s: State, t: nat, me: nat): State
    requires Inv(s) && t in s.threads && me < |s.cpus|
  {
    if t == 0 then s
    else
      LevelsFour(s);
      var c, p := TargetCpu(s, t, me), TargetLevel(s.threads[t].priority);
      var m := s.cpus[c];
      SetLevel(s, c, p, m.levels[p] + [t], m.count + 1).(threads := s.threads[t := s.threads[t].(cpu := c, priority := p)])
  }

  lemma LevelsFour(s: State)
    requires Inv(s)
    ensures forall c :: 0 <= c < |s.cpus| ==> |s.cpus[c].levels| == MLFQ_LEVELS
  {
    forall c | 0 <= c < |s.cpus| ensures |s.cpus[c].levels| == MLFQ_LEVELS { assert MlfqOk(s.threads, s.cpus[c], c); }
  }

  /** Thread `t` has become the last of queue `p` of CPU `c`, and nothing else has changed. */
  ghost predicate Joins(s: State, s': State, t: nat, c: nat, p: nat) {
    && OnlyLevel(s, s', c, p) && t in s.threads
    && s'.cpus[c].levels[p] == s.cpus[c].levels[p] + [t] && s'.cpus[c].count == s.cpus[c].count + 1
    && s'.threads == s.threads[t := s.threads[t].(cpu := c, priority := p)]
  }

  /** All queues but queue `p` of CPU `c` are the same. */
  ghost predicate OnlyLevel(s: State, s': State, c: nat, p: nat) {
    && c < |s.cpus| == |s'.cpus| && p < |s.cpus[c].levels| == |s'.cpus[c].levels|
    && (forall d :: 0 <= d < |s.cpus| && d != c ==> s'.cpus[d] == s.cpus[d])
    && forall q :: 0 <= q < |s.cpus[c].levels| && q != p ==> s'.cpus[c].levels[q] == s.cpus[c].levels[q]
  }

  /** A thread goes to its own CPU, or to the one that runs if it has none that exists, and to the end of the level its
      priority names, or of level 0 if it names none. */
  lemma EnqueueJoins(s: State, t: nat, me: nat)
    requires Inv(s) && t in s.threads && me < |s.cpus| && t != 0
    ensures var c := if s.threads[t].cpu < |s.cpus| then s.threads[t].cpu else me;
            if 0 <= s.threads[t].priority <= 3 then Joins(s, Enqueue(s, t, me), t, c, s.threads[t].priority)
            else Joins(s, Enqueue(s, t, me), t, c, 0)
  {
    LevelsFour(s);
  }

  lemma EnqueueInv(s: State, t: nat, me: nat)
    requires Inv(s) && t in s.threads && me < |s.cpus| && !Queued(s, t)
    ensures Inv(Enqueue(s, t, me))
    ensures forall u: nat :: Queued(Enqueue(s, t, me), u) <==> Queued(s, u) || (u == t && t != 0)
  {
    LevelsFour(s);
    if t != 0 {
      var c, p := TargetCpu(s, t, me), TargetLevel(s.threads[t].priority);
      var r := s.threads[t].(cpu := c, priority := p);
      ThreadChange(s, t, r);
      var s1 := s.(threads := s.threads[t := r]);
      var q := s.cpus[c].levels[p];
      assert !In(s, t, c, p);
      assert MlfqOk(s1.threads, s1.cpus[c], c) && LevelOk(s1.threads, q, c, p);
      AppendOk(s1.threads, q, t, c, p);
      LevelChange(s1, c, p, q + [t], s1.cpus[c].count + 1);
      var s' := Enqueue(s, t, me);
      assert s' == SetLevel(s1, c, p, q + [t], s1.cpus[c].count + 1);
      SameElsewhere(s, s', c, p);
      forall u: nat ensures Queued(s', u) <==> Queued(s, u) || u == t {
        QueuedAfter(s, s', c, p, u);
      }
    }
  }

  lemma AppendOk(threads: Threads, q: seq<nat>, t: nat, c: nat, p: nat)
    requires LevelOk(threads, q, c, p) && t !in q && Belongs(threads, t, c, p)
    ensures LevelOk(threads, q + [t], c, p)
  {
  }

  /** Only queue `p` of CPU `c` differs. */
  ghost predicate OnlyAt(s: State, s': State, c: nat, p: nat) {
    && c < |s.cpus| && p < |s.cpus[c].levels| && c < |s'.cpus| && p < |s'.cpus[c].levels|
    && forall u: nat, d: nat, r: nat :: (d != c || r != p) ==> (In(s', u, d, r) <==> In(s, u, d, r))
  }

  lemma SameElsewhere(s: State, s': State, c: nat, p: nat)
    requires c < |s.cpus| && p < |s.cpus[c].levels| && |s'.cpus| == |s.cpus|
    requires forall d :: 0 <= d < |s.cpus| && d != c ==> s'.cpus[d] == s.cpus[d]
    requires |s'.cpus[c].levels| == |s.cpus[c].levels| && forall r :: 0 <= r < |s.cpus[c].levels| && r != p ==> s'.cpus[c].levels[r] == s.cpus[c].levels[r]
    ensures OnlyAt(s, s', c, p)
  {
  }

  /** What is queued after one queue has changed. */
  lemma QueuedAfter(s: State, s': State, c: nat, p: nat, u: nat)
    requires OnlyAt(s, s', c, p)
    ensures u in s'.cpus[c].levels[p] ==> Queued(s', u)
    ensures u in s.cpus[c].levels[p] ==> Queued(s, u)
    ensures (u in s'.cpus[c].levels[p] <==> u in s.cpus[c].levels[p]) ==> (Queued(s', u) <==> Queued(s, u))
    ensures !(u in s'.cpus[c].levels[p]) && Queued(s', u) ==> Queued(s, u) && exists d: nat, r: nat :: (d != c || r != p) && In(s, u, d, r)
  {
    assert u in s'.cpus[c].levels[p] ==> In(s', u, c, p);
    assert u in s.cpus[c].levels[p] ==> In(s, u, c, p);
    if Queued(s', u) {
      var d: nat, r: nat :| In(s', u, d, r);
      assert d != c || r != p ==> In(s, u, d, r);
    }
    if Queued(s, u) {
      var d: nat, r: nat :| In(s, u, d, r);
      assert d != c || r != p ==> In(s', u, d, r);
    }
  }

  /** Several threads enqueued one after the other. */
  ghost function EnqueueAll(s: State, ts: seq<nat>, me: nat): (r: State)
    requires Inv(s) && me < |s.cpus| && NoDup(ts) && forall i :: 0 <= i < |ts| ==> ts[i] in s.threads && !Queued(s, ts[i])
    ensures Inv(r) && |r.cpus| == |s.cpus| && r.threads.Keys == s.threads.Keys
    ensures forall u: nat :: Queued(r, u) <==> Queued(s, u) || (u != 0 && u in ts)
  {
    if ts == [] then s
    else
      var n := |ts| - 1;
      var m := EnqueueAll(s, ts[..n], me);
      EnqueueInv(m, ts[n], me);
      Enqueue(m, ts[n], me)
  }

  // ----- dequeue -----

  /** The first level that is not empty. */
  function FirstLevel(levels: seq<seq<nat>>): nat {
    if levels == [] then 0 else if levels[0] != [] then 0 else 1 + FirstLevel(levels[1..])
  }

  lemma {:induction false} FirstLevelIs(levels: seq<seq<nat>>)
    ensures FirstLevel(levels) <= |levels|
    ensures forall p :: 0 <= p < FirstLevel(levels) ==> levels[p] == []
    ensures FirstLevel(levels) < |levels| ==> levels[FirstLevel(levels)] != []
  {
    if levels != [] && levels[0] == [] {
      FirstLevelIs(levels[1..]);
      forall p | 0 <= p < FirstLevel(levels) ensures levels[p] == [] {
        if p > 0 { assert levels[p] == levels[1..][p - 1]; }
      }
    }
  }

  predicate HasThread(s: State, c: nat) {
    c < |s.cpus| && FirstLevel(s.cpus[c].levels) < |s.cpus[c].levels|
  }

  /** The thread CPU `c` would run next. */
  function Head(s: State, c: nat): nat
    requires HasThread(s, c)
  {
    FirstLevelIs(s.cpus[c].levels);
    s.cpus[c].levels[FirstLevel(s.cpus[c].levels)][0]
  }

  /** CPU `me` takes the next thread of CPU `c`, its own or a victim. */
  function Take(s: State, c: nat, me: nat): State
    requires HasThread(s, c) && Head(s, c) in s.threads
  {
    FirstLevelIs(s.cpus[c].levels);
    var m, p, t := s.cpus[c], FirstLevel(s.cpus[c].levels), Head(s, c);
    var level := TargetLevel(s.threads[t].priority);
    SetLevel(s, c, p, m.levels[p][1..], m.count - 1).(threads :=
      s.threads[t := s.threads[t].(cpu := me, priority := level, slice := SLICES[level], ticks := 0)])
  }

  lemma HeadFacts(s: State, c: nat)
    requires Inv(s) && HasThread(s, c)
    ensures var p := FirstLevel(s.cpus[c].levels); p < MLFQ_LEVELS && In(s, Head(s, c), c, p) && Belongs(s.threads, Head(s, c), c, p)
  {
    FirstLevelIs(s.cpus[c].levels);
    assert MlfqOk(s.threads, s.cpus[c], c);
    assert LevelOk(s.threads, s.cpus[c].levels[FirstLevel(s.cpus[c].levels)], c, FirstLevel(s.cpus[c].levels));
  }

  lemma TailOk(threads: Threads, q: seq<nat>, c: nat, p: nat)
    requires LevelOk(threads, q, c, p) && q != []
    ensures LevelOk(threads, q[1..], c, p) && forall u :: u in q[1..] <==> u in q && u != q[0]
  {
    forall u ensures u in q[1..] <==> u in q && u != q[0] {
      if u in q && u != q[0] {
        var i :| 0 <= i < |q| && q[i] == u;
        assert q[1..][i - 1] == u;
      }
    }
  }

  /** Exactly the thread taken leaves the queues. */
  lemma TakeInv(s: State, c: nat, me: nat)
    requires Inv(s) && HasThread(s, c) && Head(s, c) in s.threads
    ensures Inv(Take(s, c, me))
    ensures forall u: nat :: Queued(Take(s, c, me), u) <==> Queued(s, u) && u != Head(s, c)
  {
    var p, t := FirstLevel(s.cpus[c].levels), Head(s, c);
    FirstLevelIs(s.cpus[c].levels);
    HeadFacts(s, c);
    var q := s.cpus[c].levels[p];
    assert MlfqOk(s.threads, s.cpus[c], c);
    TailOk(s.threads, q, c, p);
    var s1 := SetLevel(s, c, p, q[1..], s.cpus[c].count - 1);
    LevelChange(s, c, p, q[1..], s.cpus[c].count - 1);
    SameElsewhere(s, s1, c, p);
    forall u: nat ensures Queued(s1, u) <==> Queued(s, u) && u != t {
      QueuedAfter(s, s1, c, p, u);
      if u == t && Queued(s1, t) {
        var d: nat, r: nat :| (d != c || r != p) && In(s, t, d, r);
        InOnce(s, t, c, p, d, r);
      }
    }
    var s' := Take(s, c, me);
    ThreadChange(s1, t, s'.threads[t]);
    forall u: nat ensures Queued(s', u) <==> Queued(s1, u) { SameQueues(s1, s', u); }
  }

  /** Thread `t`, the first of queue `p` of CPU `c` with the levels above it empty, has left for CPU `me` with a fresh
      slice, and nothing else has changed. */
  ghost predicate Leaves(s: State, s': State, t: nat, c: nat, p: nat, me: nat, slice: nat) {
    && OnlyLevel(s, s', c, p) && t in s.threads
    && (forall q :: 0 <= q < p ==> s.cpus[c].levels[q] == [])
    && s.cpus[c].levels[p] == [t] + s'.cpus[c].levels[p] && s'.cpus[c].count == s.cpus[c].count - 1
    && s'.threads == s.threads[t := s.threads[t].(cpu := me, slice := slice, ticks := 0)]
  }

  /** The thread taken keeps its priority, and levels 0 to 3 give it a slice of 5, 10, 20 or 40 ticks. */
  lemma TakeLeaves(s: State, c: nat, me: nat)
    requires Inv(s) && HasThread(s, c) && Head(s, c) in s.threads
    ensures var t := Head(s, c); var p := s.threads[t].priority;
            0 <= p <= 3 && Leaves(s, Take(s, c, me), t, c, p, me, if p == 0 then 5 else if p == 1 then 10 else if p == 2 then 20 else 40)
  {
    LevelsFour(s);
    HeadFacts(s, c);
    FirstLevelIs(s.cpus[c].levels);
  }

  lemma SameQueues(s: State, s': State, u: nat)
    requires s'.cpus == s.cpus
    ensures Queued(s', u) <==> Queued(s, u)
  {
    if Queued(s, u) {
      var c: nat, p: nat :| In(s, u, c, p);
      assert In(s', u, c, p);
    }
    if Queued(s', u) {
      var c: nat, p: nat :| In(s', u, c, p);
      assert In(s, u, c, p);
    }
  }

  // ----- stealing -----

  /** The CPUs in the order CPU `me` looks for a victim. */
  function VictimAt(cores: nat, me: nat, i: nat): nat
    requires cores > 0
  {
    (me + 1 + i) % cores
  }

  predicate CanSteal(s: State, me: nat, free: set<nat>, c: nat) {
    c < |s.cpus| && c != me && s.cpus[c].count != 0 && c in free
  }

  /** The first victim from position `i` on whose lock can be had; `|s.cpus|` if there is none. */
  function Victim(s: State, me: nat, free: set<nat>, i: nat): nat
    requires |s.cpus| > 0
    decreases |s.cpus| - i
  {
    if i >= |s.cpus| then |s.cpus|
    else if CanSteal(s, me, free, VictimAt(|s.cpus|, me, i)) then VictimAt(|s.cpus|, me, i)
    else Victim(s, me, free, i + 1)
  }

  lemma {:induction false} VictimIs(s: State, me: nat, free: set<nat>, i: nat)
    requires |s.cpus| > 0
    ensures Victim(s, me, free, i) < |s.cpus| ==> CanSteal(s, me, free, Victim(s, me, free, i))
    decreases |s.cpus| - i
  {
    if i < |s.cpus| && !CanSteal(s, me, free, VictimAt(|s.cpus|, me, i)) {
      VictimIs(s, me, free, i + 1);
    }
  }

  lemma CountedHas(s: State, c: nat)
    requires Inv(s) && c < |s.cpus|
    ensures HasThread(s, c) <==> s.cpus[c].count != 0
  {
    assert MlfqOk(s.threads, s.cpus[c], c);
    FirstLevelIs(s.cpus[c].levels);
  }

  /** The CPU whose queue CPU `me` takes from; `|s.cpus|` if it finds nothing. */
  function Source(s: State, me: nat, free: set<nat>): nat
    requires |s.cpus| > 0
  {
    if HasThread(s, me) then me else Victim(s, me, free, 0)
  }

  lemma SourceHas(s: State, me: nat, free: set<nat>)
    requires Inv(s) && me < |s.cpus| && Source(s, me, free) < |s.cpus|
    ensures HasThread(s, Source(s, me, free)) && Head(s, Source(s, me, free)) in s.threads
  {
    if !HasThread(s, me) {
      VictimIs(s, me, free, 0);
      CountedHas(s, Source(s, me, free));
    }
    HeadFacts(s, Source(s, me, free));
  }

  lemma Turn(n: nat, me: nat, c: nat) returns (j: nat)
    requires me < n && c < n && c != me
    ensures j < n && VictimAt(n, me, j) == c
  {
    j := if c > me then c - me - 1 else c + n - me - 1;
    DivUnique(me + 1 + j, n, if c > me then 0 else 1, c);
  }

  /** How far CPU `c` is ahead of CPU `me`, going round. */
  function Distance(n: nat, me: nat, c: nat): int {
    if c > me then c - me else c + n - me
  }

  lemma {:induction false} VictimNearest(s: State, me: nat, free: set<nat>, i: nat, j: nat)
    requires |s.cpus| > 0 && i <= j < |s.cpus| && CanSteal(s, me, free, VictimAt(|s.cpus|, me, j))
    ensures exists k: nat :: i <= k <= j && Victim(s, me, free, i) == VictimAt(|s.cpus|, me, k)
    decreases j - i
  {
    if i < j && !CanSteal(s, me, free, VictimAt(|s.cpus|, me, i)) {
      VictimNearest(s, me, free, i + 1, j);
    }
  }

  lemma TurnDistance(n: nat, me: nat, j: nat)
    requires me < n && j < n
    ensures Distance(n, me, VictimAt(n, me, j)) == j + 1
  {
    if me + 1 + j < n {
      DivUnique(me + 1 + j, n, 0, me + 1 + j);
    } else {
      DivUnique(me + 1 + j, n, 1, me + 1 + j - n);
    }
  }

  /** A CPU that has threads takes its own; an idle one takes from the nearest CPU ahead that it can steal from, and
      from none exactly when there is none. */
  lemma StealFinds(s: State, me: nat, free: set<nat>, c: nat)
    requires Inv(s) && me < |s.cpus|
    ensures s.cpus[me].count != 0 ==> Source(s, me, free) == me
    ensures s.cpus[me].count == 0 && Source(s, me, free) < |s.cpus| ==> CanSteal(s, me, free, Source(s, me, free))
    ensures s.cpus[me].count == 0 && CanSteal(s, me, free, c) ==>
              Source(s, me, free) < |s.cpus| && Distance(|s.cpus|, me, Source(s, me, free)) <= Distance(|s.cpus|, me, c)
  {
    CountedHas(s, me);
    VictimIs(s, me, free, 0);
    if s.cpus[me].count == 0 && CanSteal(s, me, free, c) {
      hide Inv;
      var j := Turn(|s.cpus|, me, c);
      VictimNearest(s, me, free, 0, j);
      var k: nat :| 0 <= k <= j && Victim(s, me, free, 0) == VictimAt(|s.cpus|, me, k);
      TurnDistance(|s.cpus|, me, j);
      TurnDistance(|s.cpus|, me, k);
    }
  }

  // ----- boost -----

  /** The threads of `q` go to the top level with a full slice. */
  function Lifted(threads: Threads, q: seq<nat>): Threads {
    map t | t in threads :: if t in q then threads[t].(priority := 0, slice := SLICES[0]) else threads[t]
  }

  /** The queues of one CPU joined into its top level, in order. */
  function Joined(m: Mlfq): seq<nat>
    requires |m.levels| == MLFQ_LEVELS
  {
    m.levels[0] + m.levels[1] + m.levels[2] + m.levels[3]
  }

  function BoostCpu(s: State, c: nat): State
    requires c < |s.cpus| && |s.cpus[c].levels| == MLFQ_LEVELS
  {
    var m := s.cpus[c];
    State(s.cpus[c := Mlfq([Joined(m), [], [], []], m.count)], Lifted(s.threads, m.levels[1] + m.levels[2] + m.levels[3]))
  }

  lemma InJoined(m: Mlfq, u: nat)
    requires |m.levels| == MLFQ_LEVELS
    ensures u in Joined(m) <==> u in m.levels[0] || u in m.levels[1] || u in m.levels[2] || u in m.levels[3]
  {
  }

  lemma JoinedNoDup(threads: Threads, m: Mlfq, c: nat)
    requires MlfqOk(threads, m, c)
    ensures NoDup(Joined(m))
  {
    var l0, l1, l2, l3 := m.levels[0], m.levels[1], m.levels[2], m.levels[3];
    assert LevelOk(threads, l0, c, 0) && LevelOk(threads, l1, c, 1) && LevelOk(threads, l2, c, 2) && LevelOk(threads, l3, c, 3);
    forall u | u in l0 ensures threads[u].priority == 0 { }
    forall u | u in l1 ensures threads[u].priority == 1 { }
    forall u | u in l2 ensures threads[u].priority == 2 { }
    forall u | u in l3 ensures threads[u].priority == 3 { }
    JoinNoDup(l0, l1);
    JoinNoDup(l0 + l1, l2);
    JoinNoDup(l0 + l1 + l2, l3);
  }

  lemma JoinedBelongs(threads: Threads, m: Mlfq, c: nat, u: nat)
    requires MlfqOk(threads, m, c) && u in Joined(m)
    ensures Belongs(Lifted(threads, m.levels[1] + m.levels[2] + m.levels[3]), u, c, 0)
  {
    InJoined(m, u);
    assert forall p :: 0 <= p < MLFQ_LEVELS ==> LevelOk(threads, m.levels[p], c, p);
  }

  /** Boosting a CPU puts every thread of its queues at its top level, in stable order, and loses none. */
  lemma BoostCpuInv(s: State, c: nat)
    requires Inv(s) && c < |s.cpus| && |s.cpus[c].levels| == MLFQ_LEVELS
    ensures Inv(BoostCpu(s, c))
    ensures forall u: nat :: Queued(BoostCpu(s, c), u) <==> Queued(s, u)
  {
    var m, s' := s.cpus[c], BoostCpu(s, c);
    var rest := m.levels[1] + m.levels[2] + m.levels[3];
    assert MlfqOk(s.threads, m, c);
    JoinedNoDup(s.threads, m, c);
    forall i | 0 <= i < |Joined(m)| ensures Belongs(s'.threads, Joined(m)[i], c, 0) { JoinedBelongs(s.threads, m, c, Joined(m)[i]); }
    assert MlfqOk(s'.threads, s'.cpus[c], c);
    forall d: nat | d < |s.cpus| && d != c ensures MlfqOk(s'.threads, s'.cpus[d], d) {
      OtherCpuOk(s.threads, s.cpus[d], d, rest, c, m);
    }
    forall u: nat ensures Queued(s', u) <==> Queued(s, u) { BoostQueued(s, c, u); }
  }

  lemma OtherCpuOk(threads: Threads, k: Mlfq, d: nat, rest: seq<nat>, c: nat, m: Mlfq)
    requires MlfqOk(threads, k, d) && MlfqOk(threads, m, c) && c != d && rest == m.levels[1] + m.levels[2] + m.levels[3]
    ensures MlfqOk(Lifted(threads, rest), k, d)
  {
    assert forall p :: 0 <= p < MLFQ_LEVELS ==> LevelOk(threads, m.levels[p], c, p);
    forall p | 0 <= p < MLFQ_LEVELS ensures LevelOk(Lifted(threads, rest), k.levels[p], d, p) {
      assert LevelOk(threads, k.levels[p], d, p);
      forall i | 0 <= i < |k.levels[p]| ensures k.levels[p][i] !in rest { assert Belongs(threads, k.levels[p][i], d, p); }
    }
  }

  lemma BoostQueued(s: State, c: nat, u: nat)
    requires c < |s.cpus| && |s.cpus[c].levels| == MLFQ_LEVELS
    ensures Queued(BoostCpu(s, c), u) <==> Queued(s, u)
  {
    var m, s' := s.cpus[c], BoostCpu(s, c);
    InJoined(m, u);
    if Queued(s, u) {
      var d: nat, p: nat :| In(s, u, d, p);
      assert In(s', u, d, if d == c then 0 else p);
    }
    if Queued(s', u) {
      var d: nat, p: nat :| In(s', u, d, p);
      if d != c {
        assert In(s, u, d, p);
      } else {
        assert In(s, u, c, 0) || In(s, u, c, 1) || In(s, u, c, 2) || In(s, u, c, 3);
      }
    }
  }

  lemma BoostCpuOk(s: State, c: nat)
    requires Inv(s) && c < |s.cpus|
    ensures |s.cpus[c].levels| == MLFQ_LEVELS && Inv(BoostCpu(s, c)) && |BoostCpu(s, c).cpus| == |s.cpus|
    ensures forall u: nat :: Queued(BoostCpu(s, c), u) <==> Queued(s, u)
  {
    LevelsFour(s);
    BoostCpuInv(s, c);
  }

  /** `sched_boost` over the first `n` CPUs. */
  function BoostUpTo(s: State, n: nat): State
    requires Inv(s) && n <= |s.cpus|
    ensures Inv(BoostUpTo(s, n)) && |BoostUpTo(s, n).cpus| == |s.cpus|
  {
    if n == 0 then s
    else
      var r := BoostUpTo(s, n - 1);
      BoostCpuOk(r, n - 1);
      BoostCpu(r, n - 1)
  }

  /** After a boost of all CPUs every queue but the top one is empty, and the top one lists the old levels in order. */
  lemma {:induction false} BoostIs(s: State, n: nat, c: nat)
    requires Inv(s) && n <= |s.cpus| && c < |s.cpus| && |s.cpus[c].levels| == MLFQ_LEVELS
    ensures BoostUpTo(s, n).cpus[c] == if c < n then Mlfq([Joined(s.cpus[c]), [], [], []], s.cpus[c].count) else s.cpus[c]
    decreases n
  {
    hide Inv, Joined, Lifted;
    if n > 0 {
      BoostIs(s, n - 1, c);
      BoostCpuOk(BoostUpTo(s, n - 1), n - 1);
    }
  }

  /** A boost loses no thread and adds none. */
  lemma {:induction false} BoostKeeps(s: State, n: nat, u: nat)
    requires Inv(s) && n <= |s.cpus|
    ensures Queued(BoostUpTo(s, n), u) <==> Queued(s, u)
    decreases n
  {
    hide Inv, Queued;
    if n > 0 {
      BoostKeeps(s, n - 1, u);
      BoostCpuOk(BoostUpTo(s, n - 1), n - 1);
    }
  }

  /** The threads below the top level of CPU `c` are the queued ones of that CPU with a lower priority. */
  lemma LowerLevels(s: State, c: nat, t: nat)
    requires Inv(s) && c < |s.cpus| && |s.cpus[c].levels| == MLFQ_LEVELS && t in s.threads
    ensures var l: seq<seq<nat>> := s.cpus[c].levels;
            t in l[1] + l[2] + l[3] <==> Queued(s, t) && s.threads[t].cpu == c && s.threads[t].priority > 0
  {
    var l: seq<seq<nat>> := s.cpus[c].levels;
    assert MlfqOk(s.threads, s.cpus[c], c);
    assert LevelOk(s.threads, l[1], c, 1) && LevelOk(s.threads, l[2], c, 2) && LevelOk(s.threads, l[3], c, 3);
    if t in l[1] + l[2] + l[3] {
      assert In(s, t, c, 1) || In(s, t, c, 2) || In(s, t, c, 3);
    }
    if Queued(s, t) {
      var d: nat, p: nat :| In(s, t, d, p);
      assert MlfqOk(s.threads, s.cpus[d], d) && LevelOk(s.threads, s.cpus[d].levels[p], d, p);
      assert Belongs(s.threads, t, d, p);
    }
  }

  /** What a boost of the first `n` CPUs does to thread `t`. */
  lemma {:induction false} BoostThread(s: State, n: nat, t: nat)
    requires Inv(s) && n <= |s.cpus| && t in s.threads
    ensures t in BoostUpTo(s, n).threads
    ensures BoostUpTo(s, n).threads[t] ==
              if Queued(s, t) && s.threads[t].cpu < n && s.threads[t].priority > 0 then s.threads[t].(priority := 0, slice := 5)
              else s.threads[t]
    decreases n
  {
    if n > 0 {
      BoostThread(s, n - 1, t);
      LevelsFour(s);
      BoostIs(s, n - 1, n - 1);
      LowerLevels(s, n - 1, t);
      hide Inv, Queued;
    }
  }

  // ----- bounded waiting -----

  /** Everything that happens to the queues: threads become ready, CPUs look for work, one CPU after another is
      boosted, and a thread in no queue runs, sleeps or changes. */
  datatype Step = Ready(t: nat, me: nat) | Pick(me: nat, free: set<nat>) | Boost(c: nat) | Other(t: nat, thread: Thread)

  ghost predicate Enabled(s: State, step: Step) {
    match step
    case Ready(t, me) => t in s.threads && me < |s.cpus| && !Queued(s, t)
    case Pick(me, _) => me < |s.cpus|
    case Boost(c) => c < |s.cpus|
    case Other(t, _) => t in s.threads && !Queued(s, t)
  }

  ghost function Apply(s: State, step: Step): (r: State)
    requires Inv(s) && Enabled(s, step)
    ensures Inv(r) && |r.cpus| == |s.cpus|
  {
    match step
    case Ready(t, me) =>
      EnqueueInv(s, t, me);
      Enqueue(s, t, me)
    case Pick(me, free) =>
      var c := Source(s, me, free);
      if c >= |s.cpus| then s
      else
        SourceHas(s, me, free);
        TakeInv(s, c, me);
        Take(s, c, me)
    case Boost(c) =>
      BoostCpuOk(s, c);
      BoostCpu(s, c)
    case Other(t, thread) =>
      ThreadChange(s, t, thread);
      s.(threads := s.threads[t := thread])
  }

  /** The thread a step dispatches, 0 if none. */
  ghost function Dispatched(s: State, step: Step): nat
    requires Inv(s) && Enabled(s, step)
  {
    if step.Pick? && Source(s, step.me, step.free) < |s.cpus| then
      SourceHas(s, step.me, step.free);
      Head(s, Source(s, step.me, step.free))
    else 0
  }

  /** Thread `t` is the `i`-th in line at the top level of CPU `c`. */
  predicate Stands(s: State, t: nat, c: nat, i: nat) {
    c < |s.cpus| && 0 < |s.cpus[c].levels| && i < |s.cpus[c].levels[0]| && s.cpus[c].levels[0][i] == t
  }

  lemma TopFirst(s: State, t: nat, c: nat, i: nat)
    requires Inv(s) && Stands(s, t, c, i)
    ensures HasThread(s, c) && FirstLevel(s.cpus[c].levels) == 0 && Head(s, c) == s.cpus[c].levels[0][0]
  {
  }

  /** No step moves a thread at the top level back, and each dequeue on its CPU moves it on or dispatches it. */
  lemma StepStands(s: State, step: Step, t: nat, c: nat, i: nat)
    requires Inv(s) && Enabled(s, step) && Stands(s, t, c, i)
    ensures Dispatched(s, step) == t || (exists j: nat :: j <= i && Stands(Apply(s, step), t, c, j) && (step.Pick? && step.me == c ==> j < i))
  {
    LevelsFour(s);
    var s' := Apply(s, step);
    match step
    case Ready(u, me) => assert Stands(s', t, c, i);
    case Pick(me, free) =>
      TopFirst(s, t, c, i);
      var d := Source(s, me, free);
      if d >= |s.cpus| || d != c {
        assert Stands(s', t, c, i);
      } else if i > 0 {
        assert Stands(s', t, c, i - 1);
      }
    case Boost(d) => assert Stands(s', t, c, i);
    case Other(u, thread) => assert Stands(s', t, c, i);
  }

  /** The dequeues of CPU `c` in a run. */
  function Picks(steps: seq<Step>, c: nat): nat {
    if steps == [] then 0 else (if steps[0].Pick? && steps[0].me == c then 1 else 0) + Picks(steps[1..], c)
  }

  ghost predicate Possible(s: State, steps: seq<Step>)
    requires Inv(s)
    decreases |steps|
  {
    steps == [] || (Enabled(s, steps[0]) && Possible(Apply(s, steps[0]), steps[1..]))
  }

  /** Some step of the run dispatches `t`. */
  ghost predicate Runs(s: State, steps: seq<Step>, t: nat)
    requires Inv(s) && Possible(s, steps)
    decreases |steps|
  {
    steps != [] && (Dispatched(s, steps[0]) == t || Runs(Apply(s, steps[0]), steps[1..], t))
  }

  /** A thread `i`-th in line at the top level of a CPU runs within `i + 1` dequeues of that CPU, whatever else happens. */
  lemma {:induction false} BoundedWait(s: State, steps: seq<Step>, t: nat, c: nat, i: nat)
    requires Inv(s) && Possible(s, steps) && Stands(s, t, c, i) && Picks(steps, c) >= i + 1
    ensures Runs(s, steps, t)
    decreases |steps|
  {
    StepStands(s, steps[0], t, c, i);
    if Dispatched(s, steps[0]) != t {
      var j: nat :| j <= i && Stands(Apply(s, steps[0]), t, c, j) && (steps[0].Pick? && steps[0].me == c ==> j < i);
      BoundedWait(Apply(s, steps[0]), steps[1..], t, c, j);
    }
  }

  /** A thread queued at any level of a CPU stands at its top level after a boost. */
  lemma BoostStands(s: State, t: nat, c: nat, p: nat) returns (i: nat)
    requires Inv(s) && In(s, t, c, p) && Enabled(s, Boost(c))
    ensures Stands(Apply(s, Boost(c)), t, c, i) && i < s.cpus[c].count
  {
    var m := s.cpus[c];
    assert MlfqOk(s.threads, m, c);
    InJoined(m, t);
    i :| 0 <= i < |Joined(m)| && Joined(m)[i] == t;
  }

  /** No thread starves: once its CPU has been boosted, a queued thread runs within as many dequeues of that CPU as it
      had threads queued. */
  lemma BoostedWait(s: State, steps: seq<Step>, t: nat, c: nat, p: nat)
    requires Inv(s) && In(s, t, c, p) && Enabled(s, Boost(c)) && Possible(Apply(s, Boost(c)), steps)
    requires Picks(steps, c) >= s.cpus[c].count
    ensures Runs(Apply(s, Boost(c)), steps, t)
  {
    var i := BoostStands(s, t, c, p);
    BoundedWait(Apply(s, Boost(c)), steps, t, c, i);
  }
}
