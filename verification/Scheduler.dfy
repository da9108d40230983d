/** The scheduler itself (kernel/proc/sched.c): run queues, the sleep queue and the tick. */
module Scheduler {
  import opened RunQueues
  import opened Sequences

  /** Sorted by wake-up time. */
  predicate Sorted(sleepers: seq<nat>, until: map<nat, nat>) {
    (forall i :: 0 <= i < |sleepers| ==> sleepers[i] in until) &&
    forall i, j :: 0 <= i < j < |sleepers| ==> until[sleepers[i]] <= until[sleepers[j]]
  }

  class Scheduler {
    var cpus: seq<Mlfq>
    var threads: Threads
    var sleepers: seq<nat>
    var until: map<nat, nat>

    function Now(): State
      reads this
    {
      State(cpus, threads)
    }

    /** The run queues hold what they should; sleeping threads are in order, each once, and in no run queue. */
    ghost predicate Valid()
      reads this
    {
      Inv(Now()) && Asleep(Now(), sleepers, until)
    }

    constructor (cores: nat)
      requires cores > 0
      ensures Valid() && |cpus| == cores && threads == map[] && sleepers == []
    {
      cpus := seq(cores, _ => Mlfq([[], [], [], []], 0));
      threads := map[];
      sleepers := [];
      until := map[];
    }

    /** `sched_enqueue`, called on CPU `me`. */
    method Enqueue(t: nat, me: nat)
      requires Inv(Now()) && t in threads && me < |cpus| && !Queued(Now(), t)
      modifies this`cpus, this`threads
      ensures Now() == RunQueues.Enqueue(old(Now()), t, me)
      ensures t == 0 ==> Now() == old(Now())
      ensures t != 0 ==>
                var c := if old(threads)[t].cpu < |cpus| then old(threads)[t].cpu else me;
                if 0 <= old(threads)[t].priority <= 3 then Joins(old(Now()), Now(), t, c, old(threads)[t].priority)
                else Joins(old(Now()), Now(), t, c, 0)
      ensures Inv(Now()) && forall u: nat :: Queued(Now(), u) <==> old(Queued(Now(), u)) || (u == t && t != 0)
    {
      LevelsFour(Now());
      EnqueueInv(Now(), t, me);
      if t == 0 {
        return;
      }
      EnqueueJoins(Now(), t, me);
      if threads[t].cpu >= |cpus| {
        threads := threads[t := threads[t].(cpu := me)];
      }
      var c := threads[t].cpu;
      var prio := threads[t].priority;
      if prio < 0 || prio >= MLFQ_LEVELS {
        prio := 0;
      }
      threads := threads[t := threads[t].(priority := prio)];
      var m := cpus[c];
      cpus := cpus[c := Mlfq(m.levels[prio := m.levels[prio] + [t]], m.count + 1)];
    }

    /** The head of the first level of CPU `c` that has one is unlinked and handed to CPU `me`. */
    method TakeFrom(c: nat, me: nat) returns (found: bool, t: nat)
      requires Inv(Now()) && c < |cpus|
      modifies this`cpus, this`threads
      ensures found <==> old(HasThread(Now(), c))
      ensures !found ==> Now() == old(Now())
      ensures found ==> t == old(Head(Now(), c)) && t in old(threads) && Now() == Take(old(Now()), c, me)
    {
      LevelsFour(Now());
      FirstLevelIs(cpus[c].levels);
      if HasThread(Now(), c) { HeadFacts(Now(), c); }
      var m := cpus[c];
      for p := 0 to MLFQ_LEVELS
        invariant Now() == old(Now()) && forall q :: 0 <= q < p ==> m.levels[q] == []
      {
        if m.levels[p] != [] {
          t := m.levels[p][0];
          cpus := cpus[c := Mlfq(m.levels[p := m.levels[p][1..]], m.count - 1)];
          var level := TargetLevel(threads[t].priority);
          threads := threads[t := threads[t].(cpu := me, priority := level, slice := SLICES[level], ticks := 0)];
          return true, t;
        }
      }
      return false, 0;
    }

    /** `sched_dequeue` on CPU `me`; `free` are the CPUs whose lock `spin_trylock` gets. */
    method Dequeue(me: nat, free: set<nat>) returns (found: bool, t: nat)
      requires Inv(Now()) && me < |cpus|
      modifies this`cpus, this`threads
      ensures Inv(Now()) && (found <==> old(Source(Now(), me, free)) < |cpus|)
      ensures !found ==> Now() == old(Now())
      ensures found ==> old(HasThread(Now(), Source(Now(), me, free))) && t == old(Head(Now(), Source(Now(), me, free)))
      ensures found ==> t in old(threads) && Now() == Take(old(Now()), old(Source(Now(), me, free)), me)
      ensures found ==>
                var p := old(threads)[t].priority;
                0 <= p <= 3 && Leaves(old(Now()), Now(), t, old(Source(Now(), me, free)), p, me,
                                      if p == 0 then 5 else if p == 1 then 10 else if p == 2 then 20 else 40)
      ensures found ==> forall u: nat :: Queued(Now(), u) <==> old(Queued(Now(), u)) && u != t
    {
      hide FirstLevel, MlfqOk, Queued;
      if Source(Now(), me, free) < |cpus| {
        SourceHas(Now(), me, free);
        TakeInv(Now(), Source(Now(), me, free), me);
        TakeLeaves(Now(), Source(Now(), me, free), me);
      }
      found, t := TakeFrom(me, me);
      if found {
        return;
      }
      for i := 0 to |cpus|
        invariant Now() == old(Now()) && Source(Now(), me, free) == Victim(Now(), me, free, i)
      {
        var c := VictimAt(|cpus|, me, i);
        if c == me {
          continue;
        }
        if cpus[c].count == 0 {
          continue;
        }
        if c in free {
          CountedHas(Now(), c);
          found, t := TakeFrom(c, me);
          return;
        }
      }
      found, t := false, 0;
    }

    /** The threads of the lower levels of one CPU, moved to its top level one by one. */
    method BoostOne(c: nat)
      requires Inv(Now()) && c < |cpus|
      modifies this`cpus, this`threads
      ensures |old(cpus)[c].levels| == MLFQ_LEVELS && Now() == BoostCpu(old(Now()), c)
    {
      KnownThreads(Now(), c);
      ghost var m, threads0 := cpus[c], threads;
      ghost var moved: seq<nat> := [];
      NothingLifted(threads);
      UpToNone(m);
      hide Inv, Lifted, Joined, UpTo;
      assert LevelsMoved(cpus, cpus, c, moved, 1);
      hide LevelsMoved;
      for p := 1 to MLFQ_LEVELS
        invariant LevelsMoved(old(cpus), cpus, c, moved, p) && moved == UpTo(m, p) && threads == Lifted(threads0, moved)
      {
        BoostLevel(c, p, old(cpus), m, threads0, moved);
        UpToNext(m, p);
        moved := moved + m.levels[p];
      }
      BoostDone(old(cpus), cpus, c, m, moved);
    }

    method BoostLevel(c: nat, p: nat, ghost cpus0: seq<Mlfq>, ghost m: Mlfq, ghost threads0: Threads, ghost moved: seq<nat>)
      requires 1 <= p < MLFQ_LEVELS && LevelsMoved(cpus0, cpus, c, moved, p) && m == cpus0[c] && threads == Lifted(threads0, moved)
      requires forall i :: 0 <= i < |m.levels[p]| ==> m.levels[p][i] in threads0
      modifies this`cpus, this`threads
      ensures LevelsMoved(cpus0, cpus, c, moved + m.levels[p], p + 1) && threads == Lifted(threads0, moved + m.levels[p])
    {
      hide Lifted;
      var q := cpus[c].levels[p];
      MoveUp(c, p, q, threads0, moved);
      JoinMore(m.levels[0], moved, q);
    }

    /** The inner loop of `sched_boost`, for one level. */
    method MoveUp(c: nat, p: nat, q: seq<nat>, ghost threads0: Threads, ghost moved: seq<nat>)
      requires c < |cpus| && |cpus[c].levels| == MLFQ_LEVELS && 0 < p < MLFQ_LEVELS && cpus[c].levels[p] == q
      requires threads == Lifted(threads0, moved) && forall i :: 0 <= i < |q| ==> q[i] in threads0
      modifies this`cpus, this`threads
      ensures OneLevelMoved(old(cpus), cpus, c, p, q, true) && threads == Lifted(threads0, moved + q)
    {
      hide Lifted;
      assert moved + [] == moved && cpus[c].levels[0] + [] == cpus[c].levels[0];
      for i := 0 to |q|
        invariant OneLevelMoved(old(cpus), cpus, c, p, q[..i], false) && threads == Lifted(threads0, moved + q[..i])
      {
        var t := q[i];
        LiftOne(threads0, moved + q[..i], t);
        JoinMore(moved, q[..i], [t]);
        JoinMore(old(cpus)[c].levels[0], q[..i], [t]);
        assert q[..i + 1] == q[..i] + [t];
        threads := threads[t := threads[t].(priority := 0, slice := SLICES[0])];
        var m := cpus[c];
        cpus := cpus[c := m.(levels := m.levels[0 := m.levels[0] + [t]])];
      }
      assert q[..|q|] == q;
      var m := cpus[c];
      cpus := cpus[c := m.(levels := m.levels[p := []])];
    }

    /** `sched_boost`: every CPU, then the priorities of the sleeping threads. */
    method Boost()
      requires Valid()
      modifies this`cpus, this`threads
      ensures Valid() && cpus == BoostUpTo(old(Now()), |old(cpus)|).cpus
      ensures forall u: nat :: Queued(Now(), u) <==> old(Queued(Now(), u))
      ensures threads.Keys == old(threads).Keys
      ensures forall t :: t in threads ==>
                threads[t] == if t in sleepers then old(threads)[t].(priority := 0) else Boosted(old(Now()), t)
    {
      ghost var s0 := Now();
      hide Inv, BoostCpu, Queued;
      for c := 0 to |cpus|
        invariant Inv(s0) && |cpus| == |s0.cpus| && Now() == BoostUpTo(s0, c) && threads.Keys == s0.threads.Keys
      {
        BoostCpuOk(Now(), c);
        BoostOne(c);
        BoostKeys(old(Now()), c + 1);
      }
      ghost var s1 := Now();
      forall u: nat ensures Queued(s1, u) <==> Queued(s0, u) { BoostKeeps(s0, |cpus|, u); }
      forall t | t in s0.threads ensures s1.threads[t] == Boosted(s0, t) { BoostedIs(s0, t); }
      for i := 0 to |sleepers|
        invariant cpus == s1.cpus && threads.Keys == s0.threads.Keys && Inv(Now())
        invariant forall t :: t in threads ==> threads[t] == if t in sleepers[..i] then s1.threads[t].(priority := 0) else s1.threads[t]
      {
        var t := sleepers[i];
        SameQueues(s1, Now(), t);
        ThreadChange(Now(), t, threads[t].(priority := 0));
        threads := threads[t := threads[t].(priority := 0)];
      }
      forall u: nat ensures Queued(Now(), u) <==> Queued(s0, u) { SameQueues(s1, Now(), u); }
    }

    /** `thread_sleep`: the current thread goes behind every thread that wakes no later. */
    method Sleep(t: nat, now: nat, ms: nat)
      requires Valid() && t in threads && !Queued(Now(), t) && t !in sleepers
      modifies this`sleepers, this`until
      ensures Valid() && until == old(until)[t := now + ms]
      ensures exists k :: 0 <= k <= |old(sleepers)| && sleepers == old(sleepers)[..k] + [t] + old(sleepers)[k..]
                && (forall i :: 0 <= i < k ==> until[old(sleepers)[i]] <= until[t])
                && (forall i :: k <= i < |old(sleepers)| ==> until[t] < until[old(sleepers)[i]])
    {
      until := until[t := now + ms];
      var k := 0;
      while k < |sleepers| && until[t] >= until[sleepers[k]]
        invariant 0 <= k <= |sleepers| && forall i :: 0 <= i < k ==> until[sleepers[i]] <= until[t]
      {
        k := k + 1;
      }
      InsertSorted(Now(), sleepers, old(until), until, t, k);
      sleepers := sleepers[..k] + [t] + sleepers[k..];
    }

    /** The first half of `sched_tick`: every thread whose time has come is enqueued, in order. */
    method WakeDue(now: nat, me: nat)
      requires Valid() && me < |cpus|
      modifies this`cpus, this`threads, this`sleepers
      ensures Valid() && |cpus| == |old(cpus)| && (sleepers != [] ==> now < until[sleepers[0]])
      ensures exists k :: 0 <= k <= |old(sleepers)| && sleepers == old(sleepers)[k..]
                && (forall i :: 0 <= i < k ==> until[old(sleepers)[i]] <= now)
                && Now() == EnqueueAll(old(Now()), old(sleepers)[..k], me)
    {
      hide Inv, Queued;
      ghost var k := 0;
      while sleepers != [] && now >= until[sleepers[0]]
        invariant Valid() && |cpus| == |old(cpus)| && 0 <= k <= |old(sleepers)| && sleepers == old(sleepers)[k..]
        invariant forall i :: 0 <= i < k ==> until[old(sleepers)[i]] <= now
        invariant Now() == EnqueueAll(old(Now()), old(sleepers)[..k], me)
        decreases |sleepers|
      {
        var t := sleepers[0];
        ghost var s1 := Now();
        RestAsleep(s1, sleepers, until);
        sleepers := sleepers[1..];
        Enqueue(t, me);
        StillAsleep(s1, Now(), sleepers, until, t);
        assert old(sleepers)[..k + 1][..k] == old(sleepers)[..k];
        k := k + 1;
      }
    }

    /** The second half of `sched_tick`, for the thread `t` running on this CPU: when its slice is used up it goes
        down one level. */
    method Charge(t: nat) returns (resched: bool)
      requires Valid() && t in threads && t != 0 && !Queued(Now(), t)
      modifies this`threads
      ensures Valid() && threads.Keys == old(threads).Keys && resched == (old(threads)[t].slice <= 1)
      ensures forall u :: u in threads && u != t ==> threads[u] == old(threads)[u]
      ensures threads[t].priority == if resched && old(threads)[t].priority < MLFQ_LEVELS - 1 then old(threads)[t].priority + 1 else old(threads)[t].priority
      ensures threads[t].slice == if old(threads)[t].slice == 0 then 0 else old(threads)[t].slice - 1
      ensures threads[t].cpu == old(threads)[t].cpu && threads[t].ticks == if resched then 0 else old(threads)[t].ticks + 1
    {
      hide Inv, Queued;
      ghost var s0 := Now();
      var r := threads[t];
      if r.slice > 0 {
        r := r.(slice := r.slice - 1);
      }
      r := r.(ticks := r.ticks + 1);
      resched := r.slice == 0;
      if resched {
        if r.priority < MLFQ_LEVELS - 1 {
          r := r.(priority := r.priority + 1);
        }
        r := r.(ticks := 0);
      }
      ThreadChange(s0, t, r);
      threads := threads[t := r];
      forall u: nat ensures Queued(Now(), u) <==> Queued(s0, u) { SameQueues(s0, Now(), u); }
    }
  }

  /** What `sched_boost` makes of a thread that is not asleep. */
  ghost function Boosted(s: State, t: nat): Thread
    requires t in s.threads
  {
    if Queued(s, t) && s.threads[t].priority > 0 then s.threads[t].(priority := 0, slice := 5) else s.threads[t]
  }

  lemma BoostedIs(s: State, t: nat)
    requires Inv(s) && t in s.threads
    ensures t in BoostUpTo(s, |s.cpus|).threads && BoostUpTo(s, |s.cpus|).threads[t] == Boosted(s, t)
  {
    BoostThread(s, |s.cpus|, t);
    if Queued(s, t) {
      var c: nat, p: nat :| In(s, t, c, p);
      assert MlfqOk(s.threads, s.cpus[c], c) && LevelOk(s.threads, s.cpus[c].levels[p], c, p);
      assert Belongs(s.threads, t, c, p);
    }
  }

  lemma {:induction false} BoostKeys(s: State, n: nat)
    requires Inv(s) && n <= |s.cpus|
    ensures BoostUpTo(s, n).threads.Keys == s.threads.Keys
  {
    if n > 0 {
      BoostKeys(s, n - 1);
    }
  }

  lemma InsertSorted(s: State, sleepers: seq<nat>, until: map<nat, nat>, until': map<nat, nat>, t: nat, k: nat)
    requires Asleep(s, sleepers, until) && t in s.threads && !Queued(s, t) && t !in sleepers && k <= |sleepers|
    requires t in until' && until' == until[t := until'[t]]
    requires forall i :: 0 <= i < k ==> until'[sleepers[i]] <= until'[t]
    requires k < |sleepers| ==> until'[t] < until'[sleepers[k]]
    ensures Asleep(s, sleepers[..k] + [t] + sleepers[k..], until')
    ensures forall i :: k <= i < |sleepers| ==> until'[t] < until'[sleepers[i]]
  {
    var q := sleepers[..k] + [t] + sleepers[k..];
    forall i | k <= i < |sleepers| ensures until'[t] < until'[sleepers[i]] {
      assert until[sleepers[k]] <= until[sleepers[i]];
    }
    forall i | 0 <= i < |q| ensures q[i] == if i < k then sleepers[i] else if i == k then t else sleepers[i - 1] { }
  }

  lemma RestAsleep(s: State, sleepers: seq<nat>, until: map<nat, nat>)
    requires Asleep(s, sleepers, until) && sleepers != []
    ensures Asleep(s, sleepers[1..], until) && sleepers[0] !in sleepers[1..]
  {
  }

  lemma StillAsleep(s: State, s': State, sleepers: seq<nat>, until: map<nat, nat>, t: nat)
    requires Asleep(s, sleepers, until) && t !in sleepers && s.threads.Keys <= s'.threads.Keys
    requires forall u: nat :: Queued(s', u) ==> Queued(s, u) || u == t
    ensures Asleep(s', sleepers, until)
  {
  }

  /** On CPU `c` the threads `q` have been added to the top level, and level `p` is cleared or not. */
  predicate OneLevelMoved(cpus: seq<Mlfq>, cpus': seq<Mlfq>, c: nat, p: nat, q: seq<nat>, cleared: bool) {
    && c < |cpus| == |cpus'| && (forall d :: 0 <= d < |cpus| && d != c ==> cpus'[d] == cpus[d])
    && |cpus[c].levels| == |cpus'[c].levels| == MLFQ_LEVELS && cpus'[c].count == cpus[c].count
    && cpus'[c].levels[0] == cpus[c].levels[0] + q
    && forall r :: 1 <= r < MLFQ_LEVELS ==> cpus'[c].levels[r] == if cleared && r == p then [] else cpus[c].levels[r]
  }

  /** On CPU `c` the levels below `p` have been emptied into the top level. */
  predicate LevelsMoved(cpus: seq<Mlfq>, cpus': seq<Mlfq>, c: nat, q: seq<nat>, p: nat) {
    && c < |cpus| == |cpus'| && (forall d :: 0 <= d < |cpus| && d != c ==> cpus'[d] == cpus[d])
    && |cpus[c].levels| == |cpus'[c].levels| == MLFQ_LEVELS && cpus'[c].count == cpus[c].count
    && cpus'[c].levels[0] == cpus[c].levels[0] + q
    && forall r :: 1 <= r < MLFQ_LEVELS ==> cpus'[c].levels[r] == if r < p then [] else cpus[c].levels[r]
  }

  lemma BoostDone(cpus: seq<Mlfq>, cpus': seq<Mlfq>, c: nat, m: Mlfq, moved: seq<nat>)
    requires LevelsMoved(cpus, cpus', c, moved, MLFQ_LEVELS) && m == cpus[c] && moved == UpTo(m, MLFQ_LEVELS)
    ensures cpus' == cpus[c := Mlfq([Joined(m), [], [], []], m.count)] && moved == m.levels[1] + m.levels[2] + m.levels[3]
  {
    UpToAll(m);
    JoinedIs(m, moved);
    hide UpTo, Joined;
    assert cpus'[c].levels == [Joined(m), [], [], []];
  }

  lemma JoinMore(x: seq<nat>, y: seq<nat>, z: seq<nat>)
    ensures x + y + z == x + (y + z)
  {
  }

  lemma KnownThreads(s: State, c: nat)
    requires Inv(s) && c < |s.cpus|
    ensures |s.cpus[c].levels| == MLFQ_LEVELS
    ensures forall p, i :: 0 <= p < MLFQ_LEVELS && 0 <= i < |s.cpus[c].levels[p]| ==> s.cpus[c].levels[p][i] in s.threads
  {
    assert MlfqOk(s.threads, s.cpus[c], c);
    forall p, i | 0 <= p < MLFQ_LEVELS && 0 <= i < |s.cpus[c].levels[p]| ensures s.cpus[c].levels[p][i] in s.threads {
      assert LevelOk(s.threads, s.cpus[c].levels[p], c, p);
      assert Belongs(s.threads, s.cpus[c].levels[p][i], c, p);
    }
  }

  lemma NothingLifted(threads: Threads)
    ensures Lifted(threads, []) == threads
  {
  }

  lemma UpToNone(m: Mlfq)
    requires |m.levels| == MLFQ_LEVELS
    ensures UpTo(m, 1) == [] && m.levels[0] + [] == m.levels[0]
  {
  }

  lemma UpToNext(m: Mlfq, p: nat)
    requires |m.levels| == MLFQ_LEVELS && 1 <= p < MLFQ_LEVELS
    ensures UpTo(m, p + 1) == UpTo(m, p) + m.levels[p]
  {
  }

  /** Levels 1 up to `p` joined. */
  function UpTo(m: Mlfq, p: nat): seq<nat>
    requires |m.levels| == MLFQ_LEVELS && 1 <= p <= MLFQ_LEVELS
  {
    if p == 1 then [] else UpTo(m, p - 1) + m.levels[p - 1]
  }

  lemma UpToAll(m: Mlfq)
    requires |m.levels| == MLFQ_LEVELS
    ensures UpTo(m, MLFQ_LEVELS) == m.levels[1] + m.levels[2] + m.levels[3]
  {
    assert UpTo(m, 2) == UpTo(m, 1) + m.levels[1] && UpTo(m, 3) == UpTo(m, 2) + m.levels[2];
  }

  lemma JoinedIs(m: Mlfq, moved: seq<nat>)
    requires |m.levels| == MLFQ_LEVELS && moved == m.levels[1] + m.levels[2] + m.levels[3]
    ensures m.levels[0] + moved == Joined(m)
  {
  }

  lemma LiftOne(threads: Threads, q: seq<nat>, t: nat)
    requires t in threads
    ensures var r := Lifted(threads, q); t in r && Lifted(threads, q + [t]) == r[t := r[t].(priority := 0, slice := SLICES[0])]
  {
  }

  ghost predicate Asleep(s: State, sleepers: seq<nat>, until: map<nat, nat>) {
    && NoDup(sleepers) && Sorted(sleepers, until)
    && forall i :: 0 <= i < |sleepers| ==> sleepers[i] in s.threads && !Queued(s, sleepers[i])
  }
}
