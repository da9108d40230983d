/** The sleeping reader/writer semaphore (kernel/lib/lock.c): every critical section under `wait_lock` is one step,
    and the invariants hold in every interleaving of them. */
module RwSemaphore {
  import opened Sequences
  import opened Waiting

  /** Where a thread stands. A thread that tries may have been woken from a queue. */
  datatype Phase = Idle
    | TryRead(woken: bool) | WaitRead | Reading
    | TryWrite(woken: bool) | WaitWrite | Writing

  datatype State = State(count: int, readers: seq<nat>, writers: seq<nat>, phase: map<nat, Phase>)

  /** A step: one thread runs one critical section, or sets out to lock. */
  datatype Step = WantRead(t: nat) | WantWrite(t: nat)
    | DownRead(t: nat) | UpRead(t: nat) | DownWrite(t: nat) | UpWrite(t: nat) | Downgrade(t: nat)

  predicate Enabled(s: State, step: Step) {
    step.t in s.phase &&
    match step
    case WantRead(t) => s.phase[t].Idle?
    case WantWrite(t) => s.phase[t].Idle?
    case DownRead(t) => s.phase[t].TryRead?
    case UpRead(t) => s.phase[t].Reading?
    case DownWrite(t) => s.phase[t].TryWrite?
    case UpWrite(t) => s.phase[t].Writing?
    case Downgrade(t) => s.phase[t].Writing?
  }

  /** The wake-up at the end of a release: the first waiting writer, otherwise the first waiting reader. */
  function Wake(s: State): State {
    if s.writers != [] then s.(writers := s.writers[1..], phase := s.phase[s.writers[0] := TryWrite(true)])
    else if s.readers != [] then s.(readers := s.readers[1..], phase := s.phase[s.readers[0] := TryRead(true)])
    else s
  }

  function Apply(s: State, step: Step): State
    requires Enabled(s, step)
  {
    match step
    case WantRead(t) => s.(phase := s.phase[t := TryRead(false)])
    case WantWrite(t) => s.(phase := s.phase[t := TryWrite(false)])
    case DownRead(t) =>
      if s.count >= 0 && s.writers == [] then s.(count := s.count + 1, phase := s.phase[t := Reading])
      else s.(readers := s.readers + [t], phase := s.phase[t := WaitRead])
    case UpRead(t) =>
      var r := s.(count := s.count - 1, phase := s.phase[t := Idle]);
      if r.count == 0 then Wake(r) else r
    case DownWrite(t) =>
      if s.count == 0 then s.(count := -1, phase := s.phase[t := Writing])
      else s.(writers := s.writers + [t], phase := s.phase[t := WaitWrite])
    case UpWrite(t) => Wake(s.(count := 0, phase := s.phase[t := Idle]))
    case Downgrade(t) => s.(count := 1, phase := s.phase[t := Reading])
  }

  // ----- the invariant -----

  ghost function Those(phase: map<nat, Phase>, p: Phase): set<nat> {
    set t | t in phase && phase[t] == p
  }

  ghost function In(s: State, p: Phase): set<nat> {
    Those(s.phase, p)
  }

  ghost function Elems(q: seq<nat>): set<nat> {
    set t | t in q
  }

  /** The queues hold exactly the waiting threads, each once. */
  ghost predicate Queued(s: State) {
    && NoDup(s.readers) && Elems(s.readers) == In(s, WaitRead)
    && NoDup(s.writers) && Elems(s.writers) == In(s, WaitWrite)
  }

  /** `count` is -1 exactly while one writer and no reader is in, and the number of readers otherwise. */
  ghost predicate Counts(s: State) {
    if s.count == -1 then |In(s, Writing)| == 1 && In(s, Reading) == {}
    else s.count == |In(s, Reading)| && In(s, Writing) == {}
  }

  /** No wake-up is lost. */
  ghost predicate Awake(s: State) {
    && (s.count == 0 && s.writers != [] ==> In(s, TryWrite(true)) != {})
    && (s.count == 0 && s.readers != [] ==> In(s, TryWrite(true)) + In(s, TryRead(true)) != {})
  }

  ghost predicate Inv(s: State) {
    Queued(s) && Counts(s) && Awake(s)
  }

  // ----- moving one thread -----

  /** The set of threads in phase `q` once thread `t` has moved from phase `p0` to phase `p`. */
  ghost function Moved(a: set<nat>, t: nat, p0: Phase, p: Phase, q: Phase): set<nat> {
    if p == q then a + {t} else if p0 == q then a - {t} else a
  }

  lemma MovesAll(s: State, s': State, t: nat, p: Phase)
    requires t in s.phase && s'.phase == s.phase[t := p]
    ensures In(s', WaitRead) == Moved(In(s, WaitRead), t, s.phase[t], p, WaitRead)
    ensures In(s', WaitWrite) == Moved(In(s, WaitWrite), t, s.phase[t], p, WaitWrite)
    ensures In(s', Reading) == Moved(In(s, Reading), t, s.phase[t], p, Reading)
    ensures In(s', Writing) == Moved(In(s, Writing), t, s.phase[t], p, Writing)
    ensures In(s', TryRead(true)) == Moved(In(s, TryRead(true)), t, s.phase[t], p, TryRead(true))
    ensures In(s', TryWrite(true)) == Moved(In(s, TryWrite(true)), t, s.phase[t], p, TryWrite(true))
  {
  }

  lemma Enqueue(q: seq<nat>, t: nat)
    requires NoDup(q) && t !in Elems(q)
    ensures NoDup(q + [t]) && Elems(q + [t]) == Elems(q) + {t}
  {
  }

  lemma Dequeue(q: seq<nat>)
    requires NoDup(q) && q != []
    ensures NoDup(q[1..]) && q[0] in Elems(q) && Elems(q[1..]) == Elems(q) - {q[0]}
  {
    forall x ensures x in q[1..] <==> x in q && x != q[0] {
      if x in q && x != q[0] {
        var i :| 0 <= i < |q| && q[i] == x;
        assert q[1..][i - 1] == x;
      }
    }
  }

  lemma OneOnly(a: set<nat>, t: nat)
    requires |a| == 1 && t in a
    ensures a - {t} == {}
  {
    assert |a - {t}| == 0;
  }

  /** A release has made the count 0; the wake-up restores what may have been lost. */
  lemma WakeInv(s: State)
    requires Queued(s) && Counts(s) && s.count == 0
    ensures Inv(Wake(s))
  {
    hide In, NoDup, Elems;
    var s' := Wake(s);
    if s.writers != [] {
      Dequeue(s.writers);
      InFacts(s, s.writers[0], WaitWrite);
      MovesAll(s, s', s.writers[0], TryWrite(true));
    } else if s.readers != [] {
      Dequeue(s.readers);
      InFacts(s, s.readers[0], WaitRead);
      MovesAll(s, s', s.readers[0], TryRead(true));
    }
  }

  lemma InFacts(s: State, t: nat, p: Phase)
    ensures t in In(s, p) <==> t in s.phase && s.phase[t] == p
    ensures t in In(s, p) ==> forall q :: q != p ==> t !in In(s, q)
  {
  }

  lemma WantReadInv(s: State, t: nat)
    requires Inv(s) && Enabled(s, WantRead(t))
    ensures Inv(Apply(s, WantRead(t)))
  {
    var s' := Apply(s, WantRead(t));
    InFacts(s, t, s.phase[t]);
    hide In, NoDup, Elems;
    MovesAll(s, s', t, TryRead(false));
  }

  lemma WantWriteInv(s: State, t: nat)
    requires Inv(s) && Enabled(s, WantWrite(t))
    ensures Inv(Apply(s, WantWrite(t)))
  {
    var s' := Apply(s, WantWrite(t));
    InFacts(s, t, s.phase[t]);
    hide In, NoDup, Elems;
    MovesAll(s, s', t, TryWrite(false));
  }

  lemma WaitReadInv(s: State, t: nat)
    requires Inv(s) && Enabled(s, DownRead(t)) && !(s.count >= 0 && s.writers == [])
    ensures Inv(Apply(s, DownRead(t)))
  {
    InFacts(s, t, s.phase[t]);
    hide In, NoDup, Elems;
    Enqueue(s.readers, t);
    MovesAll(s, Apply(s, DownRead(t)), t, WaitRead);
  }

  lemma DownReadInv(s: State, t: nat)
    requires Inv(s) && Enabled(s, DownRead(t))
    ensures Inv(Apply(s, DownRead(t)))
  {
    var s' := Apply(s, DownRead(t));
    InFacts(s, t, s.phase[t]);
    hide In, NoDup, Elems;
    if s.count >= 0 && s.writers == [] {
      MovesAll(s, s', t, Reading);
    } else {
      WaitReadInv(s, t);
    }
  }

  lemma UpReadInv(s: State, t: nat)
    requires Inv(s) && Enabled(s, UpRead(t))
    ensures Inv(Apply(s, UpRead(t)))
  {
    var s' := Apply(s, UpRead(t));
    InFacts(s, t, s.phase[t]);
    hide In, NoDup, Elems;
    var r := s.(count := s.count - 1, phase := s.phase[t := Idle]);
    MovesAll(s, r, t, Idle);
    if r.count == 0 {
      WakeInv(r);
    }
  }

  lemma WaitWriteInv(s: State, t: nat)
    requires Inv(s) && Enabled(s, DownWrite(t)) && s.count != 0
    ensures Inv(Apply(s, DownWrite(t)))
  {
    InFacts(s, t, s.phase[t]);
    hide In, NoDup, Elems;
    Enqueue(s.writers, t);
    MovesAll(s, Apply(s, DownWrite(t)), t, WaitWrite);
  }

  lemma DownWriteInv(s: State, t: nat)
    requires Inv(s) && Enabled(s, DownWrite(t))
    ensures Inv(Apply(s, DownWrite(t)))
  {
    var s' := Apply(s, DownWrite(t));
    InFacts(s, t, s.phase[t]);
    hide In, NoDup, Elems;
    if s.count == 0 {
      MovesAll(s, s', t, Writing);
    } else {
      WaitWriteInv(s, t);
    }
  }

  lemma UpWriteInv(s: State, t: nat)
    requires Inv(s) && Enabled(s, UpWrite(t))
    ensures Inv(Apply(s, UpWrite(t)))
  {
    var s' := Apply(s, UpWrite(t));
    InFacts(s, t, s.phase[t]);
    hide In, NoDup, Elems;
    var r := s.(count := 0, phase := s.phase[t := Idle]);
    MovesAll(s, r, t, Idle);
    OneOnly(In(s, Writing), t);
    WakeInv(r);
  }

  lemma DowngradeInv(s: State, t: nat)
    requires Inv(s) && Enabled(s, Downgrade(t))
    ensures Inv(Apply(s, Downgrade(t)))
  {
    var s' := Apply(s, Downgrade(t));
    InFacts(s, t, s.phase[t]);
    hide In, NoDup, Elems;
    MovesAll(s, s', t, Reading);
    OneOnly(In(s, Writing), t);
  }

  lemma StepInv(s: State, step: Step)
    requires Inv(s) && Enabled(s, step)
    ensures Inv(Apply(s, step))
  {
    hide Inv;
    match step
    case WantRead(t) => WantReadInv(s, t);
    case WantWrite(t) => WantWriteInv(s, t);
    case DownRead(t) => DownReadInv(s, t);
    case UpRead(t) => UpReadInv(s, t);
    case DownWrite(t) => DownWriteInv(s, t);
    case UpWrite(t) => UpWriteInv(s, t);
    case Downgrade(t) => DowngradeInv(s, t);
  }

  // ----- whole runs -----

  predicate Run(s: State, steps: seq<Step>, r: State)
    decreases |steps|
  {
    if steps == [] then r == s else Enabled(s, steps[0]) && Run(Apply(s, steps[0]), steps[1..], r)
  }

  /** `rwsem_init`. */
  predicate Initial(s: State) {
    s.count == 0 && s.readers == [] && s.writers == [] && forall t :: t in s.phase ==> s.phase[t] == Idle
  }

  lemma InitialInv(s: State)
    requires Initial(s)
    ensures Inv(s)
  {
  }

  lemma {:induction false} RunInv(s: State, steps: seq<Step>, r: State)
    requires Inv(s) && Run(s, steps, r)
    ensures Inv(r)
    decreases |steps|
  {
    if steps != [] {
      StepInv(s, steps[0]);
      RunInv(Apply(s, steps[0]), steps[1..], r);
    }
  }

  /** In every run from the start, a writer excludes everyone else. */
  lemma Exclusion(s: State, steps: seq<Step>, r: State, t: nat, u: nat)
    requires Initial(s) && Run(s, steps, r)
    requires t in r.phase && r.phase[t] == Writing && u in r.phase && u != t
    ensures r.phase[u] != Writing && r.phase[u] != Reading && r.count == -1
  {
    InitialInv(s);
    RunInv(s, steps, r);
    assert t in In(r, Writing);
    OneOnly(In(r, Writing), t);
    assert u !in In(r, Writing) - {t} && u !in In(r, Reading);
  }

  /** In every run from the start, while someone waits either someone is in or a woken thread is about to try. */
  lemma NoLostWakeup(s: State, steps: seq<Step>, r: State, t: nat)
    requires Initial(s) && Run(s, steps, r) && t in r.phase && (r.phase[t] == WaitRead || r.phase[t] == WaitWrite)
    ensures (exists u :: u in r.phase && (r.phase[u] == Reading || r.phase[u] == Writing)) ||
            (exists u :: u in r.phase && (r.phase[u] == TryWrite(true) || (r.phase[t] == WaitRead && r.phase[u] == TryRead(true))))
  {
    InitialInv(s);
    RunInv(s, steps, r);
    assert t in In(r, r.phase[t]);
    assert r.phase[t] == WaitWrite ==> t in Elems(r.writers);
    assert r.phase[t] == WaitRead ==> t in Elems(r.readers);
    if r.count == 0 {
      if r.phase[t] == WaitWrite {
        var u :| u in In(r, TryWrite(true));
      } else {
        var u :| u in In(r, TryWrite(true)) + In(r, TryRead(true));
      }
    } else {
      HolderIn(r);
    }
  }

  lemma HolderIn(s: State)
    requires Counts(s) && s.count != 0
    ensures exists u :: u in s.phase && (s.phase[u] == Reading || s.phase[u] == Writing)
  {
    var u :| u in In(s, if s.count == -1 then Writing else Reading);
  }

  // ----- what the sections grant -----

  function TriedBy(step: Step): seq<nat> {
    if step.DownRead? || step.DownWrite? then [step.t] else []
  }

  /** The threads that pass through a `down`, in the order of the steps. */
  function Tries(steps: seq<Step>): seq<nat> {
    if steps == [] then [] else Tries(steps[..|steps| - 1]) + TriedBy(steps[|steps| - 1])
  }

  /** A thread has left. While readers remain nobody is woken; otherwise the writer that has waited longest is or,
      when no writer waits, the reader that has waited longest. */
  ghost predicate Releases(phase: map<nat, Phase>, tries: seq<nat>, phase': map<nat, Phase>) {
    if Those(phase, Reading) != {} then phase' == phase
    else if Those(phase, WaitWrite) != {} then
      exists w :: Longest(tries, Those(phase, WaitWrite), w) && phase' == phase[w := TryWrite(true)]
    else if Those(phase, WaitRead) != {} then
      exists w :: Longest(tries, Those(phase, WaitRead), w) && phase' == phase[w := TryRead(true)]
    else phase' == phase
  }

  /** What a step does, told by who reads, writes and waits alone: a reader enters exactly when nobody writes and no
      writer waits, and a writer exactly when nobody is in. */
  ghost predicate Grants(phase: map<nat, Phase>, tries: seq<nat>, step: Step, phase': map<nat, Phase>) {
    match step
    case WantRead(t) => phase' == phase[t := TryRead(false)]
    case WantWrite(t) => phase' == phase[t := TryWrite(false)]
    case DownRead(t) =>
      phase' == phase[t := if Those(phase, Writing) + Those(phase, WaitWrite) == {} then Reading else WaitRead]
    case UpRead(t) => Releases(phase[t := Idle], tries, phase')
    case DownWrite(t) =>
      phase' == phase[t := if Those(phase, Reading) + Those(phase, Writing) == {} then Writing else WaitWrite]
    case UpWrite(t) => Releases(phase[t := Idle], tries, phase')
    case Downgrade(t) => phase' == phase[t := Reading]
  }

  /** The semaphore's fields tell who is in and who waits. */
  lemma FieldsTell(s: State)
    requires Queued(s) && Counts(s)
    ensures s.count >= 0 <==> In(s, Writing) == {}
    ensures s.count == 0 <==> In(s, Reading) + In(s, Writing) == {}
    ensures s.writers == [] <==> In(s, WaitWrite) == {}
    ensures s.readers == [] <==> In(s, WaitRead) == {}
  {
    assert s.writers != [] ==> s.writers[0] in Elems(s.writers);
    assert s.readers != [] ==> s.readers[0] in Elems(s.readers);
  }

  lemma {:induction false} RunSplit(s: State, steps: seq<Step>, r: State) returns (m: State)
    requires Run(s, steps, r) && steps != []
    ensures Run(s, steps[..|steps| - 1], m) && Enabled(m, steps[|steps| - 1]) && r == Apply(m, steps[|steps| - 1])
    decreases |steps|
  {
    var n := |steps| - 1;
    if n == 0 {
      m := s;
    } else {
      m := RunSplit(Apply(s, steps[0]), steps[1..], r);
      assert steps[1..][..n - 1] == steps[..n][1..];
    }
  }

  /** The queues are first in, first out: in every run from the start they hold the waiting threads by age. */
  lemma {:induction false} QueueOrder(s: State, steps: seq<Step>, r: State)
    requires Initial(s) && Run(s, steps, r)
    ensures Ordered(Tries(steps), r.writers) && Ordered(Tries(steps), r.readers)
    decreases |steps|
  {
    if steps != [] {
      var m := RunSplit(s, steps, r);
      var n := |steps| - 1;
      QueueOrder(s, steps[..n], m);
      InitialInv(s);
      RunInv(s, steps[..n], m);
      StepOrder(Tries(steps[..n]), m, steps[n]);
    }
  }

  lemma StepOrder(tries: seq<nat>, m: State, step: Step)
    requires Inv(m) && Enabled(m, step) && Ordered(tries, m.writers) && Ordered(tries, m.readers)
    ensures Ordered(tries + TriedBy(step), Apply(m, step).writers)
    ensures Ordered(tries + TriedBy(step), Apply(m, step).readers)
  {
    if step.DownRead? || step.DownWrite? {
      InFacts(m, step.t, m.phase[step.t]);
      assert step.t !in Elems(m.writers) && step.t !in Elems(m.readers);
      hide Ordered, Inv;
      TryOrdered(tries, m.writers, step.t);
      TryOrdered(tries, m.readers, step.t);
    } else {
      assert tries + TriedBy(step) == tries;
    }
  }

  /** A wake-up once nobody is in takes the thread that has waited longest. */
  lemma WakeReleases(s: State, tries: seq<nat>)
    requires Queued(s) && Counts(s) && s.count == 0 && Ordered(tries, s.writers) && Ordered(tries, s.readers)
    ensures Releases(s.phase, tries, Wake(s).phase)
  {
    FieldsTell(s);
    assert forall t :: t in Elems(s.writers) <==> t in s.writers;
    assert forall t :: t in Elems(s.readers) <==> t in s.readers;
    if s.writers != [] {
      FirstLongest(tries, s.writers, In(s, WaitWrite));
    } else if s.readers != [] {
      FirstLongest(tries, s.readers, In(s, WaitRead));
    }
  }

  lemma LeaveGrants(r: State, tries: seq<nat>, step: Step)
    requires Inv(r) && Enabled(r, step) && (step.UpRead? || step.UpWrite?)
    requires Ordered(tries, r.writers) && Ordered(tries, r.readers)
    ensures Grants(r.phase, tries, step, Apply(r, step).phase)
  {
    var t := step.t;
    var m := r.(count := if step.UpRead? then r.count - 1 else 0, phase := r.phase[t := Idle]);
    InFacts(r, t, r.phase[t]);
    hide Those, NoDup, Elems, Ordered;
    MovesAll(r, m, t, Idle);
    if step.UpWrite? {
      OneOnly(In(r, Writing), t);
    }
    if m.count == 0 {
      WakeReleases(m, tries);
    } else {
      FieldsTell(m);
    }
  }

  lemma EnterGrants(r: State, tries: seq<nat>, step: Step)
    requires Inv(r) && Enabled(r, step) && !step.UpRead? && !step.UpWrite?
    ensures Grants(r.phase, tries, step, Apply(r, step).phase)
  {
    hide Those, NoDup, Elems;
    FieldsTell(r);
  }

  /** After every run from the start, every section does exactly what the phases of the threads call for. */
  lemma StepGrants(s: State, steps: seq<Step>, r: State, step: Step)
    requires Initial(s) && Run(s, steps, r) && Enabled(r, step)
    ensures Grants(r.phase, Tries(steps), step, Apply(r, step).phase)
  {
    InitialInv(s);
    RunInv(s, steps, r);
    QueueOrder(s, steps, r);
    if step.UpRead? || step.UpWrite? {
      hide *;
      LeaveGrants(r, Tries(steps), step);
    } else {
      hide *;
      EnterGrants(r, Tries(steps), step);
    }
  }

  // ----- the critical sections -----

  /** The semaphore itself. `phase` is where the threads stand, which the C code keeps in their control flow. */
  class Semaphore {
    var count: int
    var readers: seq<nat>
    var writers: seq<nat>
    ghost var phase: map<nat, Phase>

    ghost function Now(): State
      reads this
    {
      State(count, readers, writers, phase)
    }

    /** `rwsem_init`, with the threads that will use it. */
    constructor (threads: set<nat>)
      ensures Initial(Now()) && phase.Keys == threads && Inv(Now())
    {
      count := 0;
      readers := [];
      writers := [];
      phase := map t | t in threads :: Idle;
      new;
      InitialInv(Now());
    }

    /** One pass of the loop of `down_read`. */
    method TryDownRead(t: nat) returns (got: bool)
      requires Inv(Now()) && Enabled(Now(), DownRead(t))
      modifies this
      ensures Now() == Apply(old(Now()), DownRead(t)) && Inv(Now()) && (got <==> phase[t] == Reading)
      ensures got <==> old(Those(phase, Writing) + Those(phase, WaitWrite)) == {}
    {
      DownReadInv(Now(), t);
      FieldsTell(Now());
      if count >= 0 && writers == [] {
        count := count + 1;
        phase := phase[t := Reading];
        return true;
      }
      readers := readers + [t];
      phase := phase[t := WaitRead];
      got := false;
    }

    /** The hand-over both releases end with. */
    method WakeOne()
      modifies this
      ensures Now() == Wake(old(Now()))
    {
      if writers != [] {
        phase := phase[writers[0] := TryWrite(true)];
        writers := writers[1..];
      } else if readers != [] {
        phase := phase[readers[0] := TryRead(true)];
        readers := readers[1..];
      }
    }

    /** `up_read`. */
    method ReleaseRead(ghost t: nat)
      requires Inv(Now()) && Enabled(Now(), UpRead(t))
      modifies this
      ensures Now() == Apply(old(Now()), UpRead(t)) && Inv(Now())
    {
      UpReadInv(Now(), t);
      count := count - 1;
      phase := phase[t := Idle];
      if count == 0 {
        WakeOne();
      }
    }

    /** One pass of the loop of `down_write`. */
    method TryDownWrite(t: nat) returns (got: bool)
      requires Inv(Now()) && Enabled(Now(), DownWrite(t))
      modifies this
      ensures Now() == Apply(old(Now()), DownWrite(t)) && Inv(Now()) && (got <==> phase[t] == Writing)
      ensures got <==> old(Those(phase, Reading) + Those(phase, Writing)) == {}
    {
      DownWriteInv(Now(), t);
      FieldsTell(Now());
      if count == 0 {
        count := -1;
        phase := phase[t := Writing];
        return true;
      }
      writers := writers + [t];
      phase := phase[t := WaitWrite];
      got := false;
    }

    /** `up_write`. */
    method ReleaseWrite(ghost t: nat)
      requires Inv(Now()) && Enabled(Now(), UpWrite(t))
      modifies this
      ensures Now() == Apply(old(Now()), UpWrite(t)) && Inv(Now())
    {
      UpWriteInv(Now(), t);
      count := 0;
      phase := phase[t := Idle];
      WakeOne();
    }

    /** `downgrade_write`. */
    method WriteToRead(ghost t: nat)
      requires Inv(Now()) && Enabled(Now(), Downgrade(t))
      modifies this
      ensures Now() == Apply(old(Now()), Downgrade(t)) && Inv(Now())
    {
      DowngradeInv(Now(), t);
      count := 1;
      phase := phase[t := Reading];
    }
  }
}
