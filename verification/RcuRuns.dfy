/** Whole runs of read-copy-update: read sections counted by the calls, what a callback waits for, the order of the
    calls. */
module RcuRuns {
  import opened Rcu
  import opened Waiting

  // ----- read sections, by the calls made -----

  /** What a step adds to the read locks CPU `c` has taken and not given back. */
  function Change(step: Step, c: nat): int {
    if step == ReadLock(c) then 1 else if step == ReadUnlock(c) then -1 else 0
  }

  /** The `rcu_read_lock` calls of CPU `c` less its `rcu_read_unlock` calls. */
  function Balance(steps: seq<Step>, c: nat): int {
    if steps == [] then 0 else Change(steps[0], c) + Balance(steps[1..], c)
  }

  /** How often CPU `c`, `n` read locks deep at first, gives the last one back. */
  function Returns(n: int, steps: seq<Step>, c: nat): nat
    decreases |steps|
  {
    if steps == [] then 0
    else
      var n' := n + Change(steps[0], c);
      (if steps[0] == ReadUnlock(c) && n' == 0 then 1 else 0) + Returns(n', steps[1..], c)
  }

  /** CPU `c`, `n` read locks deep at first, comes to a point at which its locks and unlocks balance. */
  ghost predicate Leaves(n: int, steps: seq<Step>, c: nat) {
    exists k: nat :: k <= |steps| && n + Balance(steps[..k], c) == 0
  }

  lemma StepSections(s: State, step: Step, c: nat)
    requires Enabled(s, step) && c in s.nesting && c in s.ended
    ensures var r := Apply(s, step);
            && c in r.nesting && c in r.ended && r.nesting[c] == s.nesting[c] + Change(step, c)
            && r.ended[c] == s.ended[c] + if step == ReadUnlock(c) && r.nesting[c] == 0 then 1 else 0
  {
    hide InSection, Moved, Awaited;
  }

  lemma {:induction false} RunSections(s: State, steps: seq<Step>, r: State, c: nat)
    requires Run(s, steps, r) && c in s.nesting && c in s.ended
    ensures c in r.nesting && c in r.ended
    ensures r.nesting[c] == s.nesting[c] + Balance(steps, c) && r.ended[c] == s.ended[c] + Returns(s.nesting[c], steps, c)
    decreases |steps|
  {
    hide Apply;
    if steps != [] {
      StepSections(s, steps[0], c);
      RunSections(Apply(s, steps[0]), steps[1..], r, c);
    }
  }

  /** In every run from the start the nesting of a CPU is its locks less its unlocks, and its sections have ended as
      often as that came back to 0. */
  lemma NestingCounts(s: State, steps: seq<Step>, r: State, c: nat)
    requires Initial(s) && Run(s, steps, r) && c in s.cpus
    ensures c in r.nesting && r.nesting[c] == Balance(steps, c)
    ensures c in r.ended && r.ended[c] == s.ended[c] + Returns(0, steps, c)
  {
    RunSections(s, steps, r, c);
  }

  lemma {:induction false} ReturnsLeaves(n: int, steps: seq<Step>, c: nat)
    requires n > 0
    ensures Returns(n, steps, c) > 0 <==> Leaves(n, steps, c)
    decreases |steps|
  {
    if steps == [] {
      assert forall k: nat :: k <= |steps| ==> Balance(steps[..k], c) == 0;
    } else {
      var n' := n + Change(steps[0], c);
      LeavesLater(n, steps, c);
      if n' > 0 {
        ReturnsLeaves(n', steps[1..], c);
      } else {
        assert n' + Balance(steps[1..][..0], c) == 0;
      }
    }
  }

  lemma LeavesLater(n: int, steps: seq<Step>, c: nat)
    requires n > 0 && steps != []
    ensures Leaves(n, steps, c) <==> Leaves(n + Change(steps[0], c), steps[1..], c)
  {
    forall k: nat | k < |steps|
      ensures Balance(steps[..k + 1], c) == Change(steps[0], c) + Balance(steps[1..][..k], c)
    {
      assert steps[..k + 1][1..] == steps[1..][..k];
    }
    assert Balance(steps[..0], c) == 0;
    if Leaves(n, steps, c) {
      var k: nat :| k <= |steps| && n + Balance(steps[..k], c) == 0;
      assert k > 0;
      assert n + Change(steps[0], c) + Balance(steps[1..][..k - 1], c) == 0;
    }
    if Leaves(n + Change(steps[0], c), steps[1..], c) {
      var k: nat :| k <= |steps[1..]| && n + Change(steps[0], c) + Balance(steps[1..][..k], c) == 0;
      assert n + Balance(steps[..k + 1], c) == 0;
    }
  }

  /** A section has ended exactly when its locks and unlocks have balanced. */
  lemma EndedIffLeaves(s: State, steps: seq<Step>, r: State, c: nat)
    requires Run(s, steps, r) && c in s.nesting && c in s.ended && s.nesting[c] > 0
    ensures c in r.ended && r.ended[c] >= s.ended[c] && (r.ended[c] > s.ended[c] <==> Leaves(s.nesting[c], steps, c))
  {
    RunSections(s, steps, r, c);
    ReturnsLeaves(s.nesting[c], steps, c);
  }

  // ----- which CPUs have reported -----

  /** CPU `d` has reported and the grace period it reported in has not ended. */
  predicate Reported(steps: seq<Step>, d: nat) {
    steps != [] &&
    var n := |steps| - 1;
    steps[n] == Report(d) || (!steps[n].Finish? && Reported(steps[..n], d))
  }

  lemma {:induction false} RunCut(s: State, p: seq<Step>, q: seq<Step>, r: State) returns (m: State)
    requires Run(s, p + q, r)
    ensures Run(s, p, m) && Run(m, q, r)
    decreases |p|
  {
    hide Apply, Enabled;
    if p == [] {
      assert p + q == q;
      m := s;
    } else {
      assert (p + q)[1..] == p[1..] + q;
      m := RunCut(Apply(s, p[0]), p[1..], q, r);
    }
  }

  lemma RunLast(s: State, steps: seq<Step>, r: State) returns (m: State)
    requires Run(s, steps, r) && steps != []
    ensures Run(s, steps[..|steps| - 1], m) && Enabled(m, steps[|steps| - 1]) && r == Apply(m, steps[|steps| - 1])
  {
    var n := |steps| - 1;
    assert steps == steps[..n] + [steps[n]];
    m := RunCut(s, steps[..n], [steps[n]], r);
    assert [steps[n]][1..] == [];
    hide Apply, Enabled;
    assert Run(Apply(m, steps[n]), [], r);
  }

  lemma StepCpus(s: State, step: Step)
    requires Enabled(s, step)
    ensures Apply(s, step).cpus == s.cpus
  {
    hide InSection, Moved, Awaited;
  }

  lemma StepReported(s: State, step: Step, d: nat, before: bool)
    requires Inv(s) && Enabled(s, step) && d in s.cpus && (before <==> s.active && d !in s.waiting)
    ensures var r := Apply(s, step);
            step == Report(d) || (!step.Finish? && before) <==> r.active && d !in r.waiting
  {
    hide Inv, InSection, Moved, Awaited;
  }

  lemma {:induction false} ReportedIs(s: State, steps: seq<Step>, r: State, d: nat)
    requires Initial(s) && Run(s, steps, r) && d in s.cpus
    ensures d in r.cpus && Inv(r) && (Reported(steps, d) <==> r.active && d !in r.waiting)
    decreases |steps|
  {
    InitialInv(s);
    hide Inv, Apply, Enabled;
    RunInv(s, steps, r);
    if steps != [] {
      var n := |steps| - 1;
      var m := RunLast(s, steps, r);
      ReportedIs(s, steps[..n], m, d);
      hide Run;
      StepCpus(m, steps[n]);
      StepReported(m, steps[n], d, Reported(steps[..n], d));
    }
  }

  // ----- the grace period -----

  /** CPU `c` is about to run `cb`. */
  predicate Next(s: State, c: nat, cb: nat) {
    Enabled(s, RunOne(c)) && s.batches[c][0] == cb
  }

  lemma ReadyLeft(r: State, c: nat, d: nat)
    requires Inv(r) && Enabled(r, RunOne(c))
    ensures var cb := r.batches[c][0];
            && cb in r.readers && cb in r.awaited
            && (d in r.readers[cb] && d in r.awaited[cb] ==> d in r.ended && r.ended[d] > r.readers[cb][d])
  {
    var cb := r.batches[c][0];
    assert cb in r.batches[c] && Lists(r.batches[c], r.place, Batch(c));
    assert d in r.awaited[cb] ==> Left(r, cb, d);
  }

  lemma StepRecords(s: State, step: Step, cb: nat)
    requires Enabled(s, step) && cb in s.place && cb in s.readers && cb in s.awaited
    ensures var r := Apply(s, step);
            cb in r.place && cb in r.readers && cb in r.awaited && r.readers[cb] == s.readers[cb] && r.awaited[cb] == s.awaited[cb]
  {
    hide InSection;
  }

  /** What was recorded at registration stays. */
  lemma {:induction false} RunRecords(s: State, steps: seq<Step>, r: State, cb: nat)
    requires Run(s, steps, r) && cb in s.place && cb in s.readers && cb in s.awaited
    ensures cb in r.readers && cb in r.awaited && r.readers[cb] == s.readers[cb] && r.awaited[cb] == s.awaited[cb]
    decreases |steps|
  {
    hide Apply;
    if steps != [] {
      StepRecords(s, steps[0], cb);
      RunRecords(Apply(s, steps[0]), steps[1..], r, cb);
    }
  }

  lemma Recorded(s: State, cb: nat)
    requires Enabled(s, Register(cb))
    ensures var r := Apply(s, Register(cb));
            cb in r.place && cb in r.readers && cb in r.awaited && r.readers[cb] == InSection(s) && r.awaited[cb] == Awaited(s)
  {
    hide InSection, Awaited;
  }

  lemma RegisterReader(s: State, cb: nat, d: nat)
    requires Inv(s) && Enabled(s, Register(cb)) && d in s.nesting && s.nesting[d] > 0
    ensures var s1 := Apply(s, Register(cb));
            && d in s.ended && d in InSection(s) && InSection(s)[d] == s.ended[d]
            && s1.nesting == s.nesting && s1.ended == s.ended
  {
    Keys(s);
    hide Inv;
  }

  /** A callback runs only after a reading CPU that was still to report has left. */
  lemma ReaderLeaves(s: State, cb: nat, steps: seq<Step>, r: State, c: nat, d: nat)
    requires Inv(s) && Enabled(s, Register(cb)) && Run(Apply(s, Register(cb)), steps, r) && Next(r, c, cb)
    requires d in s.nesting && s.nesting[d] > 0 && d in Awaited(s)
    ensures Leaves(s.nesting[d], steps, d)
  {
    hide Inv, Leaves, Run;
    var s1 := Apply(s, Register(cb));
    RegisterInv(s, cb);
    Recorded(s, cb);
    RegisterReader(s, cb, d);
    hide Apply, InSection, Awaited;
    RunInv(s1, steps, r);
    RunRecords(s1, steps, r, cb);
    ReadyLeft(r, c, d);
    EndedIffLeaves(s1, steps, r, d);
  }

  /** In every run, when a callback is about to run, every CPU that was in a read section when it was registered, and
      had not yet reported in the grace period then under way, has since come to a point at which its locks and unlocks
      balance. */
  lemma GracePeriod(s: State, p: seq<Step>, cb: nat, q: seq<Step>, r: State, c: nat, d: nat)
    requires Initial(s) && Run(s, p + ([Register(cb)] + q), r) && Next(r, c, cb)
    requires d in s.cpus && Balance(p, d) > 0 && !Reported(p, d)
    ensures Leaves(Balance(p, d), q, d)
  {
    hide Inv, Apply, Enabled, Leaves;
    var m := RunCut(s, p, [Register(cb)] + q, r);
    NestingCounts(s, p, m, d);
    ReportedIs(s, p, m, d);
    assert ([Register(cb)] + q)[1..] == q;
    assert Run(Apply(m, Register(cb)), q, r);
    hide Run;
    ReaderLeaves(m, cb, q, r, c, d);
  }

  // ----- when a callback waits for all readers -----

  /** However the run goes on after the registration of `cb`, it runs only after every CPU that was reading has left. */
  ghost predicate WaitsForAll(s: State, cb: nat)
    requires Enabled(s, Register(cb))
  {
    forall steps, r, c, d :: Run(Apply(s, Register(cb)), steps, r) && Next(r, c, cb) && d in InSection(s) ==>
      Leaves(s.nesting[d], steps, d)
  }

  lemma AwaitedSuffices(s: State, cb: nat)
    requires Inv(s) && Enabled(s, Register(cb)) && InSection(s).Keys <= Awaited(s)
    ensures WaitsForAll(s, cb)
  {
    hide Inv, Run, Leaves, Apply;
    forall steps, r, c, d | Run(Apply(s, Register(cb)), steps, r) && Next(r, c, cb) && d in InSection(s)
      ensures Leaves(s.nesting[d], steps, d)
    {
      ReaderLeaves(s, cb, steps, r, c, d);
    }
  }

  // The other direction: a run in which a reader nobody waits for stays inside.

  predicate HasBatched(s: State, c: nat, cb: nat) {
    c in s.batches && cb in s.batches[c]
  }

  /** CPU `d` stays in the read section it is in. */
  ghost predicate StaysIn(s: State, r: State, d: nat) {
    && Inv(s) && Inv(r) && r.cpus == s.cpus && d in s.cpus
    && d in s.nesting && s.nesting[d] > 0 && d in s.ended
    && d in r.nesting && r.nesting[d] > 0 && d in r.ended && r.ended[d] == s.ended[d]
  }

  lemma Keys(s: State)
    requires Inv(s)
    ensures s.nesting.Keys == s.cpus && s.ended.Keys == s.cpus && s.batches.Keys == s.cpus && s.waiting <= s.cpus
  {
    hide Lists;
  }

  lemma {:induction false} RunJoin(s: State, p: seq<Step>, m: State, q: seq<Step>, r: State)
    requires Run(s, p, m) && Run(m, q, r)
    ensures Run(s, p + q, r)
    decreases |p|
  {
    hide Apply, Enabled;
    if p == [] {
      assert p + q == q;
    } else {
      RunJoin(Apply(s, p[0]), p[1..], m, q, r);
      assert (p + q)[0] == p[0] && (p + q)[1..] == p[1..] + q;
      hide Run;
      RunStep(s, p + q, Apply(s, p[0]), r);
    }
  }

  lemma RunOnce(s: State, step: Step)
    requires Inv(s) && Enabled(s, step)
    ensures Run(s, [step], Apply(s, step)) && Inv(Apply(s, step))
  {
    StepInv(s, step);
    hide Inv, Apply, Enabled, Run;
    RunNone(Apply(s, step));
    assert [step][1..] == [];
    RunStep(s, [step], Apply(s, step), Apply(s, step));
  }

  /** CPU `c` leaves its sections. */
  lemma {:induction false} Leave(s: State, c: nat, d: nat) returns (steps: seq<Step>, r: State)
    requires StaysIn(s, s, d) && c in s.cpus && c != d
    ensures Run(s, steps, r) && StaysIn(s, r, d) && r == s.(nesting := r.nesting, ended := r.ended) && c in r.nesting && r.nesting[c] == 0
    decreases if c in s.nesting then s.nesting[c] else 0
  {
    hide Inv;
    Keys(s);
    if s.nesting[c] == 0 {
      return [], s;
    }
    var s1 := Apply(s, ReadUnlock(c));
    RunOnce(s, ReadUnlock(c));
    hide Run;
    var rest, r' := Leave(s1, c, d);
    RunJoin(s, [ReadUnlock(c)], s1, rest, r');
    return [ReadUnlock(c)] + rest, r';
  }

  lemma ReportStays(s: State, c: nat, d: nat)
    requires StaysIn(s, s, d) && s.active && c in s.waiting && c in s.nesting && s.nesting[c] == 0
    ensures Enabled(s, Report(c))
    ensures var r := Apply(s, Report(c));
            StaysIn(s, r, d) && r.active && r.pending == s.pending && r.waiting == s.waiting - {c} && |r.waiting| < |s.waiting|
  {
    hide Inv, Moved, InSection;
    Keys(s);
    ReportInv(s, c);
    assert |s.waiting - {c}| == |s.waiting| - 1;
  }

  /** The CPUs that are still to report do so. */
  lemma {:induction false} ReportAll(s: State, d: nat) returns (steps: seq<Step>, r: State)
    requires StaysIn(s, s, d) && s.active && d !in s.waiting
    ensures Run(s, steps, r) && StaysIn(s, r, d) && r.active && r.waiting == {} && r.pending == s.pending
    decreases |s.waiting|
  {
    hide Inv, Apply;
    if s.waiting == {} {
      return [], s;
    }
    hide Run;
    var c :| c in s.waiting;
    Keys(s);
    var p, s1 := Leave(s, c, d);
    ReportStays(s1, c, d);
    var s2 := Apply(s1, Report(c));
    RunOnce(s1, Report(c));
    RunJoin(s, p, s1, [Report(c)], s2);
    var rest, r' := ReportAll(s2, d);
    RunJoin(s, p + [Report(c)], s2, rest, r');
    return p + [Report(c)] + rest, r';
  }

  lemma RunOneStays(s: State, c: nat, d: nat)
    requires StaysIn(s, s, d) && Enabled(s, RunOne(c))
    ensures var r := Apply(s, RunOne(c));
            StaysIn(s, r, d) && r.done == s.done && c in r.batches && s.batches[c] == [s.batches[c][0]] + r.batches[c]
  {
    hide Inv, Moved, InSection;
    RunOneInv(s, c);
  }

  /** CPU `c` runs the callbacks it has, up to `cb` if that is among them. */
  lemma {:induction false} RunUpTo(s: State, c: nat, cb: nat, d: nat) returns (steps: seq<Step>, r: State)
    requires StaysIn(s, s, d) && c in s.cpus
    ensures Run(s, steps, r) && StaysIn(s, r, d) && r.done == s.done
    ensures if HasBatched(s, c, cb) then Next(r, c, cb) else c in r.batches && r.batches[c] == []
    decreases if c in s.batches then |s.batches[c]| else 0
  {
    hide Inv, Apply;
    Keys(s);
    if s.batches[c] == [] || s.batches[c][0] == cb {
      return [], s;
    }
    hide Run;
    var s1 := Apply(s, RunOne(c));
    RunOneStays(s, c, d);
    RunOnce(s, RunOne(c));
    var rest, r' := RunUpTo(s1, c, cb, d);
    RunJoin(s, [RunOne(c)], s1, rest, r');
    return [RunOne(c)] + rest, r';
  }

  lemma DoneNotBatched(s: State, cb: nat, c: nat)
    requires Inv(s) && cb in s.done && c in s.cpus
    ensures !HasBatched(s, c, cb)
  {
    assert Lists(s.batches[c], s.place, Batch(c));
  }

  lemma FinishStays(s: State, cb: nat, d: nat) returns (c: nat)
    requires StaysIn(s, s, d) && s.active && s.waiting == {} && cb in s.pending
    ensures Enabled(s, Finish(c)) && StaysIn(s, Apply(s, Finish(c)), d) && cb in Apply(s, Finish(c)).done
  {
    c := LastReporter(s);
    hide Inv, Moved, InSection, Awaited;
    FinishInv(s, c);
    FinishIs(s, c);
    hide Apply;
  }

  lemma FinishIs(s: State, c: nat)
    requires Enabled(s, Finish(c))
    ensures var r := Apply(s, Finish(c));
            r.cpus == s.cpus && r.nesting == s.nesting && r.ended == s.ended && r.done == s.done + s.pending
  {
    hide InSection, Awaited, Moved;
  }

  lemma LastReporter(s: State) returns (c: nat)
    requires Inv(s) && s.active && s.waiting == {}
    ensures s.finisher == Somebody(c)
  {
    hide Placed, Graced, Sections;
    c := s.finisher.c;
  }

  lemma GrabStays(s: State, cb: nat, d: nat)
    requires StaysIn(s, s, d) && d in s.batches && s.batches[d] == [] && cb in s.done
    ensures Enabled(s, Grab(d)) && StaysIn(s, Apply(s, Grab(d)), d) && HasBatched(Apply(s, Grab(d)), d, cb)
  {
    hide Inv, Moved;
    GrabInv(s, d);
  }

  /** From the last report to the call. */
  lemma EndAndRun(s: State, cb: nat, d: nat) returns (steps: seq<Step>, r: State)
    requires StaysIn(s, s, d) && s.active && s.waiting == {} && cb in s.pending
    ensures Run(s, steps, r) && StaysIn(s, r, d) && Next(r, d, cb)
  {
    hide Inv, Apply, Run;
    var c := FinishStays(s, cb, d);
    var s1 := Apply(s, Finish(c));
    RunOnce(s, Finish(c));
    DoneNotBatched(s1, cb, d);
    var p, s2 := RunUpTo(s1, d, cb, d);
    RunJoin(s, [Finish(c)], s1, p, s2);
    GrabStays(s2, cb, d);
    var s3 := Apply(s2, Grab(d));
    RunOnce(s2, Grab(d));
    RunJoin(s, [Finish(c)] + p, s2, [Grab(d)], s3);
    var q, r' := RunUpTo(s3, d, cb, d);
    RunJoin(s, [Finish(c)] + p + [Grab(d)], s3, q, r');
    return [Finish(c)] + p + [Grab(d)] + q, r';
  }

  /** A callback that joins a grace period in which a reading CPU has already reported can run before that CPU leaves. */
  lemma ReaderMissed(s: State, cb: nat, d: nat) returns (steps: seq<Step>, r: State)
    requires Inv(s) && Enabled(s, Register(cb)) && d in InSection(s) && d !in Awaited(s)
    ensures Run(Apply(s, Register(cb)), steps, r) && Next(r, d, cb)
    ensures !Leaves(s.nesting[d], steps, d)
  {
    hide Inv, Run, Leaves;
    var s1 := Apply(s, Register(cb));
    RegisterInv(s, cb);
    assert d in s.cpus && s.ended[d] == InSection(s)[d];
    assert StaysIn(s1, s1, d) && s1.active && d !in s1.waiting && cb in s1.pending;
    hide Apply, InSection;
    var p, s2 := ReportAll(s1, d);
    var q, r' := EndAndRun(s2, cb, d);
    RunJoin(s1, p, s2, q, r');
    EndedIffLeaves(s1, p + q, r', d);
    return p + q, r';
  }

  /** A callback waits for all the readers of its registration, in every continuation, exactly when those of them that
      have already reported are none; a callback that opens a grace period always does. */
  lemma WaitsForAllIff(s: State, cb: nat)
    requires Inv(s) && Enabled(s, Register(cb))
    ensures WaitsForAll(s, cb) <==> InSection(s).Keys <= Awaited(s)
    ensures !s.active ==> WaitsForAll(s, cb)
  {
    hide Inv, Run, Apply;
    if InSection(s).Keys <= Awaited(s) {
      AwaitedSuffices(s, cb);
    } else {
      var d :| d in InSection(s) && d !in Awaited(s);
      var steps, r := ReaderMissed(s, cb, d);
    }
  }

  // ----- the order of the calls -----

  function RegisteredBy(step: Step): seq<nat> {
    if step.Register? then [step.cb] else []
  }

  /** The callbacks in the order of their registration. */
  function Registered(steps: seq<Step>): seq<nat> {
    if steps == [] then [] else Registered(steps[..|steps| - 1]) + RegisteredBy(steps[|steps| - 1])
  }

  /** What CPU `c` would run if it went on alone. */
  function Ahead(s: State, c: nat): seq<nat> {
    if c in s.batches then s.batches[c] + s.done + s.pending else []
  }

  lemma OrderedWithout(tries: seq<nat>, a: seq<nat>, b: seq<nat>, e: seq<nat>)
    requires Ordered(tries, a + b + e)
    ensures Ordered(tries, a + e)
  {
    forall i, j | 0 <= i < j < |a + e| ensures Since(tries, (a + e)[i]) < Since(tries, (a + e)[j]) {
      var i', j' := if i < |a| then i else i + |b|, if j < |a| then j else j + |b|;
      assert (a + b + e)[i'] == (a + e)[i] && (a + b + e)[j'] == (a + e)[j];
    }
  }

  lemma NewNotAhead(s: State, cb: nat, c: nat)
    requires Inv(s) && cb !in s.place && c in s.cpus
    ensures c in s.batches && cb !in Ahead(s, c)
  {
    assert Lists(s.batches[c], s.place, Batch(c));
  }

  lemma RegisterAhead(s: State, cb: nat, c: nat)
    requires Inv(s) && Enabled(s, Register(cb)) && c in s.cpus
    ensures cb !in Ahead(s, c) && Ahead(Apply(s, Register(cb)), c) == Ahead(s, c) + [cb]
  {
    NewNotAhead(s, cb, c);
    hide Inv, InSection, Awaited;
    assert s.batches[c] + s.done + (s.pending + [cb]) == s.batches[c] + s.done + s.pending + [cb];
  }

  /** The lists CPU `c` would run through, after a step that registers nothing. */
  lemma MoveLists(s: State, step: Step, c: nat)
    requires Enabled(s, step) && !step.Register? && c in s.batches
    ensures var r := Apply(s, step);
            && c in r.batches
            && r.batches[c] == (if step == Grab(c) then s.done else if step == RunOne(c) then s.batches[c][1..] else s.batches[c])
            && r.done == (if step.Grab? then [] else if step.Finish? then s.done + s.pending else s.done)
            && r.pending == (if step.Finish? then [] else s.pending)
  {
    hide InSection, Awaited, Moved;
  }

  lemma JoinTail(a: seq<nat>, b: seq<nat>, e: seq<nat>)
    ensures a + (b + e) + [] == a + b + e && b + [] + e == b + e && [] + b + e == b + e && a + [] + e == a + e
    ensures a != [] ==> a[1..] + b + e == (a + b + e)[1..]
  {
  }

  /** A step that registers nothing leaves the line of a CPU, or takes its first or its middle part away. */
  lemma MoveAhead(s: State, step: Step, c: nat)
    requires Enabled(s, step) && c in s.batches && !step.Register?
    ensures var a := Ahead(Apply(s, step), c);
            a == Ahead(s, c) || (Ahead(s, c) != [] && a == Ahead(s, c)[1..]) || a == s.batches[c] + s.pending
  {
    MoveLists(s, step, c);
    JoinTail(s.batches[c], s.done, s.pending);
    hide Apply;
  }

  lemma StepAhead(s: State, step: Step, c: nat, tries: seq<nat>)
    requires Inv(s) && Enabled(s, step) && c in s.cpus && Ordered(tries, Ahead(s, c))
    ensures Ordered(tries + RegisteredBy(step), Ahead(Apply(s, step), c))
  {
    hide Inv, Apply, Enabled;
    if step.Register? {
      hide Ordered;
      RegisterAhead(s, step.cb, c);
      TryOrdered(tries, Ahead(s, c), step.cb);
    } else {
      Keys(s);
      MoveAhead(s, step, c);
      OrderedWithout(tries, s.batches[c], s.done, s.pending);
      assert tries + RegisteredBy(step) == tries;
    }
  }

  /** In every run from the start, the callbacks a CPU has taken, those that are finished and those that are pending
      follow each other in the order of their registration. */
  lemma {:induction false} CallsInOrder(s: State, steps: seq<Step>, r: State, c: nat)
    requires Initial(s) && Run(s, steps, r) && c in s.cpus
    ensures c in r.cpus && Inv(r) && Ordered(Registered(steps), Ahead(r, c))
    decreases |steps|
  {
    InitialInv(s);
    hide Inv, Apply, Enabled, Ordered;
    RunInv(s, steps, r);
    if steps == [] {
      assert Ahead(r, c) == [];
      NoneOrdered([]);
    } else {
      var n := |steps| - 1;
      var m := RunLast(s, steps, r);
      CallsInOrder(s, steps[..n], m, c);
      hide Run;
      StepCpus(m, steps[n]);
      StepAhead(m, steps[n], c, Registered(steps[..n]));
    }
  }

  lemma NoneOrdered(tries: seq<nat>)
    ensures Ordered(tries, [])
  {
  }

  // ----- a callback that runs early -----

  function TwoCpus(): State {
    State({0, 1}, [], [], map[0 := [], 1 := []], [], false, 0, {}, Nobody, map[0 := 0, 1 := 0], map[0 := 0, 1 := 0], map[], map[], map[])
  }

  // Callback 7 opens a grace period; CPU 0 reports, then starts reading.

  function Early1(): State {
    TwoCpus().(pending := [7], place := map[7 := Pending], active := true, cpusOut := 2, waiting := {0, 1},
               readers := map[7 := map[]], awaited := map[7 := {0, 1}])
  }

  function Early2(): State {
    Early1().(waiting := {1}, cpusOut := 1)
  }

  function Early3(): State {
    Early2().(nesting := map[0 := 1, 1 := 0])
  }

  lemma EarlyStep1()
    ensures Enabled(TwoCpus(), Register(7)) && Apply(TwoCpus(), Register(7)) == Early1()
  {
    assert InSection(TwoCpus()) == map[];
    assert |{0, 1}| == 2;
  }

  lemma EarlyStep2()
    ensures Enabled(Early1(), Report(0)) && Apply(Early1(), Report(0)) == Early2()
  {
    assert {0, 1} - {0} == {1};
  }

  lemma EarlyStep3()
    ensures Enabled(Early2(), ReadLock(0)) && Apply(Early2(), ReadLock(0)) == Early3()
  {
  }

  lemma EarlyRun()
    ensures Initial(TwoCpus()) && Run(TwoCpus(), [Register(7), Report(0), ReadLock(0)], Early3()) && Inv(Early3())
  {
    hide Apply, Enabled, Inv;
    var p := [Register(7), Report(0), ReadLock(0)];
    EarlyStep1();
    EarlyStep2();
    EarlyStep3();
    assert p[1..] == [Report(0), ReadLock(0)] && p[1..][1..] == [ReadLock(0)] && [ReadLock(0)][1..] == [];
    RunStep(Early2(), [ReadLock(0)], Early3(), Early3());
    hide Run;
    RunStep(Early1(), p[1..], Early2(), Early3());
    RunStep(TwoCpus(), p, Early1(), Early3());
    InitialInv(TwoCpus());
    RunInv(TwoCpus(), p, Early3());
  }

  lemma EarlyReader()
    ensures Enabled(Early3(), Register(8)) && InSection(Early3()) == map[0 := 0] && Awaited(Early3()) == {1}
    ensures Early3().nesting[0] == 1
  {
  }

  /** Now callback 8 joins: it need not wait for CPU 0, and there is a run in which it runs while CPU 0 is still inside. */
  lemma JoinedRunsEarly() returns (steps: seq<Step>, r: State)
    ensures Initial(TwoCpus()) && Run(TwoCpus(), [Register(7), Report(0), ReadLock(0)], Early3())
    ensures Enabled(Early3(), Register(8)) && !WaitsForAll(Early3(), 8)
    ensures Run(Apply(Early3(), Register(8)), steps, r) && Next(r, 0, 8)
    ensures !Leaves(1, steps, 0)
  {
    EarlyRun();
    EarlyReader();
    hide *;
    WaitsForAllIff(Early3(), 8);
    steps, r := ReaderMissed(Early3(), 8, 0);
  }

  lemma RunNone(s: State)
    ensures Run(s, [], s)
  {
  }

  lemma RunStep(s: State, steps: seq<Step>, s': State, r: State)
    requires steps != [] && Enabled(s, steps[0]) && s' == Apply(s, steps[0]) && Run(s', steps[1..], r)
    ensures Run(s, steps, r)
  {
  }
}
