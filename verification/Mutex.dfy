/** The sleeping mutex (kernel/lib/lock.c): every critical section under `wait_lock` is one step. */
module Mutex {
  import opened Sequences
  import opened Waiting

  datatype Phase = Idle | Try(woken: bool) | Wait | Hold

  datatype State = State(locked: bool, queue: seq<nat>, phase: map<nat, Phase>)

  datatype Step = Want(t: nat) | Lock(t: nat) | Unlock(t: nat)

  predicate Enabled(s: State, step: Step) {
    step.t in s.phase &&
    match step
    case Want(t) => s.phase[t].Idle?
    case Lock(t) => s.phase[t].Try?
    case Unlock(t) => s.phase[t].Hold?
  }

  function Apply(s: State, step: Step): State
    requires Enabled(s, step)
  {
    match step
    case Want(t) => s.(phase := s.phase[t := Try(false)])
    case Lock(t) =>
      if !s.locked then s.(locked := true, phase := s.phase[t := Hold])
      else s.(queue := s.queue + [t], phase := s.phase[t := Wait])
    case Unlock(t) =>
      var p := s.phase[t := Idle];
      if s.queue == [] then s.(locked := false, phase := p)
      else s.(locked := false, queue := s.queue[1..], phase := p[s.queue[0] := Try(true)])
  }

  /** One holder while locked; the queue is the waiting threads; an unlocked mutex with waiters has woken one. */
  ghost predicate Inv(s: State) {
    && NoDup(s.queue) && (forall t :: t in s.queue <==> t in s.phase && s.phase[t] == Wait)
    && (s.locked <==> exists t :: t in s.phase && s.phase[t] == Hold)
    && (forall t, u :: t in s.phase && u in s.phase && s.phase[t] == Hold && s.phase[u] == Hold ==> t == u)
    && (!s.locked && s.queue != [] ==> exists t :: t in s.phase && s.phase[t] == Try(true))
  }

  lemma Dequeue(q: seq<nat>, x: nat)
    requires NoDup(q) && q != []
    ensures NoDup(q[1..]) && (x in q[1..] <==> x in q && x != q[0])
  {
    if x in q && x != q[0] {
      var i :| 0 <= i < |q| && q[i] == x;
      assert q[1..][i - 1] == x;
    }
  }

  lemma LockInv(s: State, t: nat)
    requires Inv(s) && Enabled(s, Lock(t))
    ensures Inv(Apply(s, Lock(t)))
  {
    var s' := Apply(s, Lock(t));
    assert t !in s.queue;
    if !s.locked {
      assert s'.phase[t] == Hold;
    } else {
      var h :| h in s.phase && s.phase[h] == Hold;
      assert s'.phase[h] == Hold;
    }
  }

  lemma UnlockInv(s: State, t: nat)
    requires Inv(s) && Enabled(s, Unlock(t))
    ensures Inv(Apply(s, Unlock(t)))
  {
    var s' := Apply(s, Unlock(t));
    assert t !in s.queue;
    if s.queue != [] {
      var w := s.queue[0];
      assert w in s.queue;
      forall x ensures NoDup(s.queue[1..]) && (x in s.queue[1..] <==> x in s.queue && x != w) { Dequeue(s.queue, x); }
      assert s'.phase[w] == Try(true);
    }
  }

  lemma StepInv(s: State, step: Step)
    requires Inv(s) && Enabled(s, step)
    ensures Inv(Apply(s, step))
  {
    match step
    case Want(t) =>
      var s' := Apply(s, step);
      if s.locked {
        var h :| h in s.phase && s.phase[h] == Hold;
        assert s'.phase[h] == Hold;
      } else if s.queue != [] {
        var w :| w in s.phase && s.phase[w] == Try(true);
        assert s'.phase[w] == Try(true);
      }
    case Lock(t) => LockInv(s, t);
    case Unlock(t) => UnlockInv(s, t);
  }

  predicate Run(s: State, steps: seq<Step>, r: State)
    decreases |steps|
  {
    if steps == [] then r == s else Enabled(s, steps[0]) && Run(Apply(s, steps[0]), steps[1..], r)
  }

  /** `mutex_init`. */
  predicate Initial(s: State) {
    !s.locked && s.queue == [] && forall t :: t in s.phase ==> s.phase[t] == Idle
  }

  lemma {:induction false} RunInv(s: State, steps: seq<Step>, r: State)
    requires Inv(s) && Run(s, steps, r)
    ensures Inv(r)
    decreases |steps|
  {
    if steps != [] {
      StepInv(s, steps[0]);
      RunInv(Apply(s, steps[0]), steps[1..], r);
    }
  }

  /** In every run from the start: one holder at most, and while a thread waits somebody holds the mutex or has been woken for it. */
  lemma Safe(s: State, steps: seq<Step>, r: State)
    requires Initial(s) && Run(s, steps, r)
    ensures forall t, u :: t in r.phase && u in r.phase && r.phase[t] == Hold && r.phase[u] == Hold ==> t == u
    ensures r.queue != [] ==> exists t :: t in r.phase && (r.phase[t] == Hold || r.phase[t] == Try(true))
  {
    assert Inv(s);
    RunInv(s, steps, r);
  }

  // ----- what the sections grant -----

  function TriedBy(step: Step): seq<nat> {
    if step.Lock? then [step.t] else []
  }

  /** The threads that try to lock, in the order of the steps. */
  function Tries(steps: seq<Step>): seq<nat> {
    if steps == [] then [] else Tries(steps[..|steps| - 1]) + TriedBy(steps[|steps| - 1])
  }

  ghost function Those(phase: map<nat, Phase>, p: Phase): set<nat> {
    set t | t in phase && phase[t] == p
  }

  /** What a step does, told by who holds and waits alone: a thread gets the mutex exactly when nobody holds it, and a
      release wakes the thread that has waited longest. */
  ghost predicate Grants(phase: map<nat, Phase>, tries: seq<nat>, step: Step, phase': map<nat, Phase>) {
    match step
    case Want(t) => phase' == phase[t := Try(false)]
    case Lock(t) => phase' == phase[t := if Those(phase, Hold) == {} then Hold else Wait]
    case Unlock(t) =>
      if Those(phase, Wait) == {} then phase' == phase[t := Idle]
      else exists w :: Longest(tries, Those(phase, Wait), w) && phase' == phase[t := Idle][w := Try(true)]
  }

  lemma FieldsTell(s: State)
    requires Inv(s)
    ensures s.locked <==> Those(s.phase, Hold) != {}
    ensures forall t :: t in Those(s.phase, Wait) <==> t in s.queue
    ensures s.queue == [] <==> Those(s.phase, Wait) == {}
  {
    if s.locked {
      var t :| t in s.phase && s.phase[t] == Hold;
      assert t in Those(s.phase, Hold);
    }
    assert s.queue != [] ==> s.queue[0] in Those(s.phase, Wait);
  }

  lemma {:induction false} RunSplit(s: State, steps: seq<Step>, r: State) returns (m: State)
    requires Run(s, steps, r) && steps != []
    ensures Run(s, steps[..|steps| - 1], m) && Enabled(m, steps[|steps| - 1]) && r == Apply(m, steps[|steps| - 1])
    decreases |steps|
  {
    var n := |steps| - 1;
    if n == 0 {
      m := s;
    } else {
      m := RunSplit(Apply(s, steps[0]), steps[1..], r);
      assert steps[1..][..n - 1] == steps[..n][1..];
    }
  }

  lemma StepOrder(tries: seq<nat>, m: State, step: Step)
    requires Inv(m) && Enabled(m, step) && Ordered(tries, m.queue)
    ensures Ordered(tries + TriedBy(step), Apply(m, step).queue)
  {
    if step.Lock? {
      TryOrdered(tries, m.queue, step.t);
    } else {
      assert tries + TriedBy(step) == tries;
    }
  }

  /** In every run from the start the queue holds the waiting threads by age. */
  lemma {:induction false} QueueOrder(s: State, steps: seq<Step>, r: State)
    requires Initial(s) && Run(s, steps, r)
    ensures Ordered(Tries(steps), r.queue)
    decreases |steps|
  {
    if steps != [] {
      var m := RunSplit(s, steps, r);
      var n := |steps| - 1;
      QueueOrder(s, steps[..n], m);
      RunInv(s, steps[..n], m);
      StepOrder(Tries(steps[..n]), m, steps[n]);
    }
  }

  lemma UnlockGrants(r: State, tries: seq<nat>, t: nat)
    requires Inv(r) && Enabled(r, Unlock(t)) && Ordered(tries, r.queue)
    ensures Grants(r.phase, tries, Unlock(t), Apply(r, Unlock(t)).phase)
  {
    FieldsTell(r);
    hide Inv, Ordered, Longest;
    if r.queue != [] {
      FirstLongest(tries, r.queue, Those(r.phase, Wait));
    }
  }

  /** After every run from the start, every section does exactly what the phases of the threads call for. */
  lemma StepGrants(s: State, steps: seq<Step>, r: State, step: Step)
    requires Initial(s) && Run(s, steps, r) && Enabled(r, step)
    ensures Grants(r.phase, Tries(steps), step, Apply(r, step).phase)
  {
    RunInv(s, steps, r);
    QueueOrder(s, steps, r);
    if step.Unlock? {
      UnlockGrants(r, Tries(steps), step.t);
    } else {
      FieldsTell(r);
    }
  }
}
