/** Read-copy-update (kernel/misc/rcu.c) as a protocol of steps: each critical section under the lock, each atomic update
    and each entry and exit of a read section is one step. Readers stay on their CPU. */
module Rcu {
  import opened Sequences

  /** Where a registered callback is. */
  datatype Where = Pending | Done | Batch(c: nat) | Ran

  /** The reporting CPU that took `cpus_out` to 0 and has yet to end the grace period. */
  datatype Finisher = Nobody | Somebody(c: nat)

  datatype State = State(
    cpus: set<nat>,
    pending: seq<nat>, done: seq<nat>, batches: map<nat, seq<nat>>, ran: seq<nat>,
    active: bool, cpusOut: int, waiting: set<nat>, finisher: Finisher,
    nesting: map<nat, nat>,
    /** How many read sections each CPU has ended. */
    ended: map<nat, nat>,
    /** For each callback, the section each CPU that was reading at its registration was in. */
    readers: map<nat, map<nat, nat>>,
    /** For each callback, the CPUs that were still to report after its registration. */
    awaited: map<nat, set<nat>>,
    place: map<nat, Where>)

  datatype Step = Register(cb: nat) | ReadLock(c: nat) | ReadUnlock(c: nat) | Report(c: nat) | Finish(c: nat) | Grab(c: nat) | RunOne(c: nat)

  predicate Enabled(s: State, step: Step) {
    match step
    case Register(cb) => cb !in s.place
    case ReadLock(c) => c in s.cpus && c in s.nesting
    case ReadUnlock(c) => c in s.cpus && c in s.nesting && s.nesting[c] > 0 && c in s.ended
    case Report(c) => c in s.cpus && c in s.nesting && s.active && s.nesting[c] == 0 && c in s.waiting
    case Finish(c) => s.finisher == Somebody(c)
    case Grab(c) => c in s.cpus && c in s.batches && s.batches[c] == []
    case RunOne(c) => c in s.cpus && c in s.batches && s.batches[c] != []
  }

  /** The sections the CPUs are in now. */
  function InSection(s: State): map<nat, nat> {
    map c | c in s.cpus && c in s.nesting && c in s.ended && s.nesting[c] > 0 :: s.ended[c]
  }

  /** The CPUs a callback registered now waits for: those still to report if it joins a grace period,
      all of them if it opens one. */
  function Awaited(s: State): set<nat> {
    if s.active then s.waiting else s.cpus
  }

  function Moved(place: map<nat, Where>, q: seq<nat>, w: Where): map<nat, Where> {
    map cb | cb in place :: if cb in q then w else place[cb]
  }

  function Apply(s: State, step: Step): State
    requires Enabled(s, step)
  {
    match step
    case Register(cb) =>
      var r := s.(pending := s.pending + [cb], place := s.place[cb := Pending], readers := s.readers[cb := InSection(s)],
                  awaited := s.awaited[cb := Awaited(s)]);
      if s.active then r else r.(active := true, cpusOut := |s.cpus|, waiting := s.cpus)
    case ReadLock(c) => s.(nesting := s.nesting[c := s.nesting[c] + 1])
    case ReadUnlock(c) =>
      s.(nesting := s.nesting[c := s.nesting[c] - 1],
         ended := if s.nesting[c] == 1 then s.ended[c := s.ended[c] + 1] else s.ended)
    case Report(c) =>
      s.(waiting := s.waiting - {c}, cpusOut := s.cpusOut - 1, finisher := if s.cpusOut == 1 then Somebody(c) else s.finisher)
    case Finish(c) =>
      s.(pending := [], done := s.done + s.pending, place := Moved(s.place, s.pending, Done), active := false, finisher := Nobody)
    case Grab(c) => s.(done := [], batches := s.batches[c := s.done], place := Moved(s.place, s.done, Batch(c)))
    case RunOne(c) =>
      var cb := s.batches[c][0];
      s.(batches := s.batches[c := s.batches[c][1..]], ran := s.ran + [cb], place := s.place[cb := Ran])
  }

  // ----- the invariant -----

  /** `q` lists exactly the callbacks at `w`, each once. */
  ghost predicate Lists(q: seq<nat>, place: map<nat, Where>, w: Where) {
    NoDup(q) && forall cb :: cb in q <==> cb in place && place[cb] == w
  }

  /** Every callback is in exactly one of the lists. */
  ghost predicate Placed(s: State) {
    && s.batches.Keys == s.cpus
    && Lists(s.pending, s.place, Pending) && Lists(s.done, s.place, Done) && Lists(s.ran, s.place, Ran)
    && (forall c :: c in s.cpus ==> Lists(s.batches[c], s.place, Batch(c)))
    && forall cb :: cb in s.place && s.place[cb].Batch? ==> s.place[cb].c in s.cpus
  }

  /** `cpus_out` counts the CPUs still to report; the one that reports last ends the grace period. */
  ghost predicate Counted(s: State) {
    && s.waiting <= s.cpus && s.cpus != {}
    && (s.active ==> s.cpusOut == |s.waiting| && (s.waiting == {} <==> s.finisher.Somebody?))
    && (!s.active ==> s.pending == [] && s.finisher == Nobody)
  }

  /** The section CPU `c` was in when callback `cb` was registered has ended. */
  predicate Left(s: State, cb: nat, c: nat) {
    cb in s.readers && c in s.readers[cb] ==> c in s.ended && s.ended[c] > s.readers[cb][c]
  }

  /** A section that has not ended is still being read. */
  ghost predicate Sections(s: State) {
    && s.nesting.Keys == s.cpus && s.ended.Keys == s.cpus
    && forall cb, c :: cb in s.readers && c in s.readers[cb] ==>
      c in s.cpus && s.readers[cb][c] <= s.ended[c] && (s.readers[cb][c] == s.ended[c] ==> s.nesting[c] > 0)
  }

  /** While a callback is pending, the CPUs it waited for that have reported have left their sections; once it is no
      longer pending, all of them have. */
  ghost predicate Graced(s: State) {
    && s.readers.Keys == s.place.Keys && s.awaited.Keys == s.place.Keys
    && forall cb, c :: cb in s.place && c in s.awaited[cb] && (s.place[cb] == Pending ==> c !in s.waiting) ==> Left(s, cb, c)
  }

  ghost predicate Inv(s: State) {
    Placed(s) && Counted(s) && Sections(s) && Graced(s)
  }

  // ----- lists -----

  lemma ListsAppend(q: seq<nat>, place: map<nat, Where>, w: Where, cb: nat)
    requires Lists(q, place, w) && (cb in place ==> place[cb] != w)
    ensures Lists(q + [cb], place[cb := w], w)
  {
  }

  lemma ListsOther(q: seq<nat>, place: map<nat, Where>, w: Where, cb: nat, v: Where)
    requires Lists(q, place, w) && v != w && (cb in place ==> place[cb] != w)
    ensures Lists(q, place[cb := v], w)
  {
  }

  lemma ListsTail(q: seq<nat>, place: map<nat, Where>, w: Where, v: Where)
    requires Lists(q, place, w) && q != [] && v != w
    ensures q[0] in place && place[q[0]] == w && Lists(q[1..], place[q[0] := v], w)
  {
    assert q[0] in q;
    forall x ensures x in q[1..] <==> x in q && x != q[0] {
      if x in q && x != q[0] {
        var i :| 0 <= i < |q| && q[i] == x;
        assert q[1..][i - 1] == x;
      }
    }
  }

  lemma ListsMoved(q: seq<nat>, r: seq<nat>, place: map<nat, Where>, w: Where, v: Where)
    requires Lists(q, place, w) && Lists(r, place, v) && w != v
    ensures Lists([], Moved(place, q, v), w) && Lists(r + q, Moved(place, q, v), v)
  {
    var u := r + q;
    forall i, j | 0 <= i < j < |u| ensures u[i] != u[j] {
      if i < |r| <= j { assert r[i] in r && q[j - |r|] in q; }
    }
  }

  lemma ListsAside(x: seq<nat>, q: seq<nat>, place: map<nat, Where>, u: Where, w: Where, v: Where)
    requires Lists(x, place, u) && Lists(q, place, w) && u != w && u != v
    ensures Lists(x, Moved(place, q, v), u)
  {
  }

  // ----- every step keeps the invariant -----

  lemma NonePending(s: State)
    requires Placed(s) && s.pending == []
    ensures forall cb :: cb in s.place ==> s.place[cb] != Pending
  {
  }

  lemma RegisterPlaced(s: State, cb: nat)
    requires Placed(s) && Enabled(s, Register(cb))
    ensures Placed(Apply(s, Register(cb)))
  {
    var s' := Apply(s, Register(cb));
    ListsAppend(s.pending, s.place, Pending, cb);
    ListsOther(s.done, s.place, Done, cb, Pending);
    ListsOther(s.ran, s.place, Ran, cb, Pending);
    forall c | c in s.cpus ensures Lists(s.batches[c], s'.place, Batch(c)) { ListsOther(s.batches[c], s.place, Batch(c), cb, Pending); }
    hide Lists;
  }

  /** A callback joins the active grace period, or opens one that every CPU has to report in. */
  lemma RegisterInv(s: State, cb: nat)
    requires Inv(s) && Enabled(s, Register(cb))
    ensures Inv(Apply(s, Register(cb)))
  {
    RegisterPlaced(s, cb);
    if !s.active { NonePending(s); }
    InSectionCpus(s);
    hide Placed, Graced, Sections, InSection;
    var s' := Apply(s, Register(cb));
    RegisterSections(s, s', cb);
    RegisterGraced(s, s', cb, InSection(s));
  }

  lemma RegisterIs(s: State, cb: nat)
    requires Enabled(s, Register(cb))
    ensures Apply(s, Register(cb)) ==
            State(s.cpus, s.pending + [cb], s.done, s.batches, s.ran, true, if s.active then s.cpusOut else |s.cpus|,
                  if s.active then s.waiting else s.cpus, s.finisher, s.nesting, s.ended, s.readers[cb := InSection(s)],
                  s.awaited[cb := Awaited(s)], s.place[cb := Pending])
  {
    hide InSection, Awaited;
  }

  lemma RegisterGraced(s: State, s': State, cb: nat, r: map<nat, nat>)
    requires Graced(s) && cb !in s.place && s'.place == s.place[cb := Pending] && s'.ended == s.ended
    requires s'.readers == s.readers[cb := r] && s'.awaited == s.awaited[cb := s'.waiting]
    requires s'.waiting == s.waiting || forall x :: x in s.place ==> s.place[x] != Pending
    ensures Graced(s')
  {
    assert forall x, c :: x != cb ==> (Left(s', x, c) <==> Left(s, x, c));
  }

  lemma InSectionCpus(s: State)
    ensures forall c :: c in InSection(s) ==> c in s.cpus
  {
  }

  lemma RegisterSections(s: State, s': State, cb: nat)
    requires Sections(s) && s'.cpus == s.cpus && s'.nesting == s.nesting && s'.ended == s.ended && s'.readers == s.readers[cb := InSection(s)]
    ensures Sections(s')
  {
  }

  /** Nothing but the read sections changes. */
  lemma ReadKeeps(s: State, s': State)
    requires Inv(s) && s' == s.(nesting := s'.nesting, ended := s'.ended) && Sections(s')
    requires forall c :: c in s.ended ==> c in s'.ended && s'.ended[c] >= s.ended[c]
    ensures Inv(s')
  {
    hide Lists;
    assert forall x, d :: Left(s, x, d) ==> Left(s', x, d);
  }

  lemma ReadLockInv(s: State, c: nat)
    requires Inv(s) && Enabled(s, ReadLock(c))
    ensures Inv(Apply(s, ReadLock(c)))
  {
    var s' := Apply(s, ReadLock(c));
    assert Sections(s') by { hide Placed, Graced; }
    hide Placed, Graced, Sections;
    ReadKeeps(s, s');
  }

  lemma ReadUnlockInv(s: State, c: nat)
    requires Inv(s) && Enabled(s, ReadUnlock(c))
    ensures Inv(Apply(s, ReadUnlock(c)))
  {
    hide Placed, Graced, Sections;
    var s' := Apply(s, ReadUnlock(c));
    UnlockSections(s, s', c);
    SectionKeys(s);
    ReadKeeps(s, s');
  }

  lemma SectionKeys(s: State)
    requires Sections(s)
    ensures s.ended.Keys == s.cpus
  {
  }

  lemma UnlockSections(s: State, s': State, c: nat)
    requires Sections(s) && c in s.cpus && s.nesting[c] > 0 && s'.cpus == s.cpus && s'.readers == s.readers
    requires s'.nesting == s.nesting[c := s.nesting[c] - 1]
    requires s'.ended == if s.nesting[c] == 1 then s.ended[c := s.ended[c] + 1] else s.ended
    ensures Sections(s')
  {
  }

  lemma ReportInv(s: State, c: nat)
    requires Inv(s) && Enabled(s, Report(c))
    ensures Inv(Apply(s, Report(c)))
  {
    var s' := Apply(s, Report(c));
    assert |s.waiting - {c}| == |s.waiting| - 1;
    hide Placed, Graced, Sections;
    ReportGraced(s, s', c);
    SectionsSame(s, s');
    ReportPlaced(s, s');
  }

  lemma ReportPlaced(s: State, s': State)
    requires Placed(s) && s' == s.(waiting := s'.waiting, cpusOut := s'.cpusOut, finisher := s'.finisher)
    ensures Placed(s')
  {
    hide Lists;
  }

  /** A CPU that reports is in no read section, so it has left those it was in before. */
  lemma ReportGraced(s: State, s': State, c: nat)
    requires Graced(s) && Sections(s) && c in s.cpus && s.nesting[c] == 0
    requires s' == s.(waiting := s.waiting - {c}, cpusOut := s'.cpusOut, finisher := s'.finisher)
    ensures Graced(s')
  {
    assert forall x, d :: Left(s, x, d) ==> Left(s', x, d);
    assert forall x :: x in s.readers ==> Left(s', x, c);
  }

  lemma FinishPlaced(s: State, c: nat)
    requires Placed(s) && Enabled(s, Finish(c))
    ensures Placed(Apply(s, Finish(c)))
    ensures forall x :: x in s.place ==> Apply(s, Finish(c)).place[x] != Pending
  {
    var s' := Apply(s, Finish(c));
    ListsMoved(s.pending, s.done, s.place, Pending, Done);
    ListsAside(s.ran, s.pending, s.place, Ran, Pending, Done);
    forall d | d in s.cpus ensures Lists(s.batches[d], s'.place, Batch(d)) { ListsAside(s.batches[d], s.pending, s.place, Batch(d), Pending, Done); }
  }

  lemma MovedKeys(place: map<nat, Where>, q: seq<nat>, w: Where)
    ensures Moved(place, q, w).Keys == place.Keys
  {
  }

  lemma SectionsSame(s: State, s': State)
    requires Sections(s) && s'.cpus == s.cpus && s'.nesting == s.nesting && s'.ended == s.ended && s'.readers == s.readers
    ensures Sections(s')
  {
  }

  /** The callbacks move on; what is known about the sections stays. */
  lemma GracedKept(s: State, s': State)
    requires Graced(s) && s'.place.Keys == s.place.Keys && s'.ended == s.ended && s'.readers == s.readers && s'.awaited == s.awaited && s'.waiting == s.waiting
    requires forall x :: x in s.place ==> (s'.place[x] == Pending <==> s.place[x] == Pending)
    ensures Graced(s')
  {
    assert forall x, d :: Left(s', x, d) <==> Left(s, x, d);
  }

  lemma FinishInv(s: State, c: nat)
    requires Inv(s) && Enabled(s, Finish(c))
    ensures Inv(Apply(s, Finish(c)))
  {
    hide Placed, Graced, Sections, Moved, InSection;
    FinishPlaced(s, c);
    MovedKeys(s.place, s.pending, Done);
    var s' := Apply(s, Finish(c));
    SectionsSame(s, s');
    FinishGraced(s, s');
  }

  lemma FinishGraced(s: State, s': State)
    requires Graced(s) && s.waiting == {} && s'.place.Keys == s.place.Keys && s'.ended == s.ended && s'.readers == s.readers && s'.awaited == s.awaited
    requires forall x :: x in s.place ==> s'.place[x] != Pending
    ensures Graced(s')
  {
    assert forall x, d :: Left(s', x, d) <==> Left(s, x, d);
  }

  lemma GrabPlaced(s: State, c: nat)
    requires Placed(s) && Enabled(s, Grab(c))
    ensures Placed(Apply(s, Grab(c)))
    ensures forall x :: x in s.place ==> (Apply(s, Grab(c)).place[x] == Pending <==> s.place[x] == Pending)
  {
    hide Lists, Moved;
    var s' := Apply(s, Grab(c));
    assert Lists([], s.place, Batch(c));
    ListsMoved(s.done, [], s.place, Done, Batch(c));
    assert [] + s.done == s.done;
    ListsAside(s.ran, s.done, s.place, Ran, Done, Batch(c));
    ListsAside(s.pending, s.done, s.place, Pending, Done, Batch(c));
    forall d | d in s.cpus && d != c ensures Lists(s.batches[d], s'.place, Batch(d)) { ListsAside(s.batches[d], s.done, s.place, Batch(d), Done, Batch(c)); }
    MovedAt(s.done, s.place, Done, Batch(c));
  }

  lemma MovedAt(q: seq<nat>, place: map<nat, Where>, w: Where, v: Where)
    requires Lists(q, place, w)
    ensures Moved(place, q, v).Keys == place.Keys && forall x :: x in place ==> Moved(place, q, v)[x] == if place[x] == w then v else place[x]
  {
  }

  lemma GrabInv(s: State, c: nat)
    requires Inv(s) && Enabled(s, Grab(c))
    ensures Inv(Apply(s, Grab(c)))
  {
    GrabPlaced(s, c);
    MovedKeys(s.place, s.done, Batch(c));
    hide Placed, Graced, Sections, Moved, InSection;
    SectionsSame(s, Apply(s, Grab(c)));
    GracedKept(s, Apply(s, Grab(c)));
  }

  lemma RunOnePlaced(s: State, c: nat)
    requires Placed(s) && Enabled(s, RunOne(c))
    ensures Placed(Apply(s, RunOne(c)))
    ensures Apply(s, RunOne(c)).place.Keys == s.place.Keys
    ensures forall x :: x in s.place ==> (Apply(s, RunOne(c)).place[x] == Pending <==> s.place[x] == Pending)
  {
    hide Lists;
    var s', cb := Apply(s, RunOne(c)), s.batches[c][0];
    ListsTail(s.batches[c], s.place, Batch(c), Ran);
    ListsAppend(s.ran, s.place, Ran, cb);
    ListsOther(s.pending, s.place, Pending, cb, Ran);
    ListsOther(s.done, s.place, Done, cb, Ran);
    forall d | d in s.cpus && d != c ensures Lists(s.batches[d], s'.place, Batch(d)) { ListsOther(s.batches[d], s.place, Batch(d), cb, Ran); }
  }

  lemma RunOneInv(s: State, c: nat)
    requires Inv(s) && Enabled(s, RunOne(c))
    ensures Inv(Apply(s, RunOne(c)))
  {
    RunOnePlaced(s, c);
    hide Placed, Graced, Sections, Moved, InSection, NoDup;
    var s' := Apply(s, RunOne(c));
    assert s' == s.(batches := s'.batches, ran := s'.ran, place := s'.place);
    assert Counted(s');
    hide Counted;
    SectionsSame(s, s');
    GracedKept(s, s');
  }

  lemma StepInv(s: State, step: Step)
    requires Inv(s) && Enabled(s, step)
    ensures Inv(Apply(s, step))
  {
    hide Inv;
    match step
    case Register(cb) => RegisterInv(s, cb);
    case ReadLock(c) => ReadLockInv(s, c);
    case ReadUnlock(c) => ReadUnlockInv(s, c);
    case Report(c) => ReportInv(s, c);
    case Finish(c) => FinishInv(s, c);
    case Grab(c) => GrabInv(s, c);
    case RunOne(c) => RunOneInv(s, c);
  }

  // ----- whole runs -----

  predicate Run(s: State, steps: seq<Step>, r: State)
    decreases |steps|
  {
    if steps == [] then r == s else Enabled(s, steps[0]) && Run(Apply(s, steps[0]), steps[1..], r)
  }

  /** `rcu_init`. */
  predicate Initial(s: State) {
    && s.cpus != {} && s.pending == [] && s.done == [] && s.ran == [] && s.place == map[] && s.readers == map[] && s.awaited == map[]
    && !s.active && s.waiting == {} && s.finisher == Nobody
    && s.batches.Keys == s.cpus && s.nesting.Keys == s.cpus && s.ended.Keys == s.cpus
    && (forall c :: c in s.cpus ==> s.batches[c] == [] && s.nesting[c] == 0)
  }

  lemma InitialInv(s: State)
    requires Initial(s)
    ensures Inv(s)
  {
  }

  lemma {:induction false} RunInv(s: State, steps: seq<Step>, r: State)
    requires Inv(s) && Run(s, steps, r)
    ensures Inv(r)
    decreases |steps|
  {
    if steps != [] {
      StepInv(s, steps[0]);
      RunInv(Apply(s, steps[0]), steps[1..], r);
    }
  }

  /** In every run no callback runs twice, and none is both run and still queued. */
  lemma RunsOnce(s: State, steps: seq<Step>, r: State, cb: nat)
    requires Initial(s) && Run(s, steps, r) && cb in r.ran
    ensures NoDup(r.ran) && cb !in r.pending && cb !in r.done && forall c :: c in r.batches ==> cb !in r.batches[c]
  {
    InitialInv(s);
    RunInv(s, steps, r);
    forall c | c in r.batches ensures cb !in r.batches[c] { assert Lists(r.batches[c], r.place, Batch(c)); }
  }

  // ----- the code -----

  lemma NestingKeys(s: State)
    requires Inv(s)
    ensures s.nesting.Keys == s.cpus
  {
  }

  /** The global state and what each function does to it in one step. */
  class RcuState {
    const cpus: set<nat>
    var pending: seq<nat>
    var done: seq<nat>
    var batches: map<nat, seq<nat>>
    var active: bool
    var cpusOut: int
    var waiting: set<nat>
    var finisher: Finisher
    var nesting: map<nat, nat>
    ghost var ran: seq<nat>
    ghost var ended: map<nat, nat>
    ghost var readers: map<nat, map<nat, nat>>
    ghost var awaited: map<nat, set<nat>>
    ghost var place: map<nat, Where>

    ghost function Now(): State
      reads this
    {
      State(cpus, pending, done, batches, ran, active, cpusOut, waiting, finisher, nesting, ended, readers, awaited, place)
    }

    /** `rcu_init`. */
    constructor (cores: set<nat>)
      requires cores != {}
      ensures Initial(Now()) && Inv(Now()) && cpus == cores
    {
      cpus, pending, done, batches := cores, [], [], map c | c in cores :: [];
      active, cpusOut, waiting, finisher, nesting := false, 0, {}, Nobody, map c | c in cores :: 0;
      ran, ended, readers, awaited, place := [], map c | c in cores :: 0, map[], map[], map[];
      new;
      InitialInv(Now());
    }

    /** `rcu_read_lock` on CPU `c`. */
    method Lock(c: nat)
      requires Inv(Now()) && Enabled(Now(), ReadLock(c))
      modifies this`nesting
      ensures Now() == Apply(old(Now()), ReadLock(c)) && Inv(Now())
    {
      hide Inv, Moved, InSection;
      ReadLockInv(Now(), c);
      nesting := nesting[c := nesting[c] + 1];
    }

    /** `rcu_read_unlock` on CPU `c`. */
    method Unlock(c: nat)
      requires Inv(Now()) && Enabled(Now(), ReadUnlock(c))
      modifies this`nesting, this`ended
      ensures Now() == Apply(old(Now()), ReadUnlock(c)) && Inv(Now())
    {
      hide Inv, Moved, InSection;
      ReadUnlockInv(Now(), c);
      if nesting[c] == 1 {
        ended := ended[c := ended[c] + 1];
      }
      nesting := nesting[c := nesting[c] - 1];
    }

    /** The start of a grace period in `call_rcu`, unless one is under way. */
    method Begin()
      modifies this`active, this`cpusOut, this`waiting
      ensures active && cpusOut == (if old(active) then old(cpusOut) else |cpus|) && waiting == if old(active) then old(waiting) else cpus
    {
      if !active {
        active := true;
        cpusOut := |cpus|;
        waiting := cpus;
      }
    }

    /** `call_rcu`. */
    method Call(cb: nat)
      requires Inv(Now()) && Enabled(Now(), Register(cb))
      modifies this
      ensures Now() == Apply(old(Now()), Register(cb)) && Inv(Now())
    {
      hide Inv, InSection, Moved;
      RegisterInv(Now(), cb);
      RegisterIs(Now(), cb);
      hide Enabled, Awaited, Apply;
      readers, awaited := readers[cb := InSection(Now())], awaited[cb := Awaited(Now())];
      pending := pending + [cb];
      place := place[cb := Pending];
      Begin();
    }

    /** `rcu_report_qs` on CPU `c`, up to the atomic decrement. */
    method ReportQs(c: nat)
      requires Inv(Now()) && c in cpus
      modifies this`waiting, this`cpusOut, this`finisher
      ensures Inv(Now())
      ensures Now() == if old(Enabled(Now(), Report(c))) then Apply(old(Now()), Report(c)) else old(Now())
    {
      hide Inv, Moved, InSection;
      NestingKeys(Now());
      if Enabled(Now(), Report(c)) { ReportInv(Now(), c); }
      if !active {
        return;
      }
      if nesting[c] > 0 {
        return;
      }
      if c !in waiting {
        return;
      }
      waiting := waiting - {c};
      if cpusOut == 1 {
        finisher := Somebody(c);
      }
      cpusOut := cpusOut - 1;
    }

    /** The rest of `rcu_report_qs`, on the CPU that reported last. */
    method EndGracePeriod(c: nat)
      requires Inv(Now()) && Enabled(Now(), Finish(c))
      modifies this
      ensures Now() == Apply(old(Now()), Finish(c)) && Inv(Now())
    {
      hide Inv, Moved, InSection;
      FinishInv(Now(), c);
      place := Moved(place, pending, Done);
      done := done + pending;
      pending := [];
      active := false;
      finisher := Nobody;
    }

    /** `rcu_softirq_handler` on CPU `c`: the finished callbacks are taken, then called one by one. */
    method Softirq(c: nat)
      requires Inv(Now()) && Enabled(Now(), Grab(c))
      modifies this
      ensures Inv(Now()) && c in batches && batches[c] == [] && done == [] && ran == old(ran) + old(done)
    {
      hide Inv, Moved, InSection;
      GrabInv(Now(), c);
      ghost var todo := done;
      place := Moved(place, done, Batch(c));
      batches := batches[c := done];
      done := [];
      while batches[c] != []
        invariant Inv(Now()) && c in cpus && c in batches && done == [] && ran + batches[c] == old(ran) + todo
        decreases |batches[c]|
      {
        RunFirst(c);
        assert old(ran) + todo == ran + batches[c];
      }
    }

    /** One turn of the loop. */
    method RunFirst(c: nat)
      requires Inv(Now()) && Enabled(Now(), RunOne(c))
      modifies this`batches, this`ran, this`place
      ensures Inv(Now()) && c in batches && |batches[c]| < |old(batches)[c]| && ran + batches[c] == old(ran) + old(batches)[c]
    {
      hide Inv, Moved, InSection;
      RunOneInv(Now(), c);
      ghost var cb := batches[c][0];
      assert ran + batches[c] == ran + [cb] + batches[c][1..];
      batches := batches[c := batches[c][1..]];
      ran := ran + [cb];
      place := place[cb := Ran];
    }
  }
}
