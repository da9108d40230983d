/** The ticket spinlock (kernel/lib/lock.c), with one step for every access to the shared words. Tickets are unbounded
    here: fewer than 2^32 are outstanding at a time. */
module TicketLock {

  /** A CPU that wants the lock spins with its ticket, or is between the two accesses of `spin_trylock`. */
  datatype Phase = Idle | Spin(ticket: nat) | Trying(serving: nat) | Hold(own: nat)

  datatype State = State(serving: nat, next: nat, phase: map<nat, Phase>)

  datatype Step = Take(c: nat) | Enter(c: nat) | Read(c: nat) | GiveUp(c: nat) | Swap(c: nat) | Unlock(c: nat)

  predicate Enabled(s: State, step: Step) {
    step.c in s.phase &&
    match step
    case Take(c) => s.phase[c].Idle?
    case Enter(c) => s.phase[c].Spin? && s.serving == s.phase[c].ticket
    case Read(c) => s.phase[c].Idle?
    case GiveUp(c) => s.phase[c].Trying? && s.next != s.phase[c].serving
    case Swap(c) => s.phase[c].Trying?
    case Unlock(c) => s.phase[c].Hold?
  }

  function Apply(s: State, step: Step): State
    requires Enabled(s, step)
  {
    match step
    case Take(c) => s.(next := s.next + 1, phase := s.phase[c := Spin(s.next)])
    case Enter(c) => s.(phase := s.phase[c := Hold(s.phase[c].ticket)])
    case Read(c) => s.(phase := s.phase[c := Trying(s.serving)])
    case GiveUp(c) => s.(phase := s.phase[c := Idle])
    case Swap(c) =>
      if s.next == s.phase[c].serving then s.(next := s.next + 1, phase := s.phase[c := Hold(s.phase[c].serving)])
      else s.(phase := s.phase[c := Idle])
    case Unlock(c) => s.(serving := s.serving + 1, phase := s.phase[c := Idle])
  }

  /** The ticket a CPU is bound to, by spinning or by holding. */
  predicate Has(s: State, c: nat, ticket: nat) {
    c in s.phase && (s.phase[c] == Spin(ticket) || s.phase[c] == Hold(ticket))
  }

  ghost predicate Taken(s: State, ticket: nat) {
    exists c: nat :: Has(s, c, ticket)
  }

  /** The outstanding tickets are those from `serving` up to `next`, each with one CPU; the holder has the one served. */
  ghost predicate Inv(s: State) {
    && s.serving <= s.next
    && (forall c: nat, k: nat :: Has(s, c, k) ==> s.serving <= k < s.next)
    && (forall c: nat, d: nat, k: nat :: Has(s, c, k) && Has(s, d, k) ==> c == d)
    && (forall k: nat :: s.serving <= k < s.next ==> Taken(s, k))
    && (forall c :: c in s.phase && s.phase[c].Hold? ==> s.phase[c].own == s.serving)
    && (forall c :: c in s.phase && s.phase[c].Trying? ==> s.phase[c].serving <= s.serving)
  }

  lemma StepInv(s: State, step: Step)
    requires Inv(s) && Enabled(s, step)
    ensures Inv(Apply(s, step))
  {
    var c, s' := step.c, Apply(s, step);
    assert s'.phase == s.phase[c := s'.phase[c]];
    assert forall d: nat, k: nat :: d != c ==> (Has(s', d, k) <==> Has(s, d, k));
    assert s.phase[c].Spin? ==> Has(s, c, s.phase[c].ticket);
    assert s.phase[c].Hold? ==> Has(s, c, s.phase[c].own);
    assert forall d: nat :: d in s.phase && s.phase[d].Hold? ==> Has(s, d, s.serving);
    forall k: nat | s'.serving <= k < s'.next ensures Taken(s', k) {
      if k < s.next {
        assert Taken(s, k);
        var d: nat :| Has(s, d, k);
        assert Has(s', d, k);
      } else {
        assert Has(s', c, k);
      }
    }
  }

  predicate Run(s: State, steps: seq<Step>, r: State)
    decreases |steps|
  {
    if steps == [] then r == s else Enabled(s, steps[0]) && Run(Apply(s, steps[0]), steps[1..], r)
  }

  /** `spin_lock_init`. */
  predicate Initial(s: State) {
    s.serving == 0 && s.next == 0 && forall c :: c in s.phase ==> s.phase[c] == Idle
  }

  lemma {:induction false} RunInv(s: State, steps: seq<Step>, r: State)
    requires Inv(s) && Run(s, steps, r)
    ensures Inv(r)
    decreases |steps|
  {
    if steps != [] {
      StepInv(s, steps[0]);
      RunInv(Apply(s, steps[0]), steps[1..], r);
    }
  }

  /** In every run at most one CPU holds the lock, although `spin_trylock` reads the two words one after the other. */
  lemma Exclusion(s: State, steps: seq<Step>, r: State, c: nat, d: nat)
    requires Initial(s) && Run(s, steps, r)
    requires c in r.phase && d in r.phase && r.phase[c].Hold? && r.phase[d].Hold?
    ensures c == d
  {
    RunInv(s, steps, r);
    assert Has(r, c, r.serving) && Has(r, d, r.serving);
  }

  /** A successful `spin_trylock` finds the lock free: nobody holds it or waits for it. */
  lemma TryFindsFree(s: State, c: nat, d: nat, k: nat)
    requires Inv(s) && Enabled(s, Swap(c)) && s.next == s.phase[c].serving
    ensures !Has(s, d, k)
  {
  }

  /** How often the lock was released since CPU `c` last read `now_serving` in `spin_trylock`. */
  function ReleasesSinceRead(steps: seq<Step>, c: nat): nat {
    if steps == [] then 0
    else
      var n := |steps| - 1;
      if steps[n] == Read(c) then 0
      else ReleasesSinceRead(steps[..n], c) + if steps[n].Unlock? then 1 else 0
  }

  lemma {:induction false} RunSplit(s: State, steps: seq<Step>, r: State) returns (m: State)
    requires Run(s, steps, r) && steps != []
    ensures Run(s, steps[..|steps| - 1], m) && Enabled(m, steps[|steps| - 1]) && r == Apply(m, steps[|steps| - 1])
    decreases |steps|
  {
    var n := |steps| - 1;
    if n == 0 {
      m := s;
    } else {
      m := RunSplit(Apply(s, steps[0]), steps[1..], r);
      assert steps[1..][..n - 1] == steps[..n][1..];
    }
  }

  /** What `spin_trylock` read is as old as the number of releases since. */
  lemma {:induction false} ReadAge(s: State, steps: seq<Step>, r: State, c: nat)
    requires Initial(s) && Run(s, steps, r) && c in r.phase && r.phase[c].Trying?
    ensures r.serving == r.phase[c].serving + ReleasesSinceRead(steps, c)
    decreases |steps|
  {
    if steps != [] {
      var m := RunSplit(s, steps, r);
      if steps[|steps| - 1] != Read(c) {
        ReadAge(s, steps[..|steps| - 1], m, c);
      }
    }
  }

  /** In every run, `spin_trylock` gets the lock exactly when nobody holds it or waits for it and it was not released
      since `now_serving` was read; otherwise the CPU goes on without it. Its first test gives up in no other case. */
  lemma TryGrants(s: State, steps: seq<Step>, r: State, c: nat)
    requires Initial(s) && Run(s, steps, r) && Enabled(r, Swap(c))
    ensures Apply(r, Swap(c)).phase[c].Hold? <==>
            (forall d: nat, k: nat :: !Has(r, d, k)) && ReleasesSinceRead(steps, c) == 0
    ensures !Apply(r, Swap(c)).phase[c].Hold? ==> Apply(r, Swap(c)) == r.(phase := r.phase[c := Idle])
    ensures Enabled(r, GiveUp(c)) <==> !Apply(r, Swap(c)).phase[c].Hold?
  {
    RunInv(s, steps, r);
    ReadAge(s, steps, r, c);
    if r.serving < r.next {
      assert Taken(r, r.serving);
    }
  }

  /** First come, first served: nobody enters past a CPU that took its ticket earlier. */
  lemma EnterInOrder(s: State, c: nat, d: nat)
    requires Inv(s) && Enabled(s, Enter(c)) && d in s.phase && d != c && s.phase[d].Spin?
    ensures s.phase[c].ticket < s.phase[d].ticket
  {
    assert Has(s, c, s.phase[c].ticket) && Has(s, d, s.phase[d].ticket);
  }

  /** While anyone waits, the lock is held or the CPU whose turn it is can enter. */
  lemma NobodyStuck(s: State, c: nat)
    requires Inv(s) && c in s.phase && s.phase[c].Spin?
    ensures exists d :: d in s.phase && (s.phase[d].Hold? || Enabled(s, Enter(d)))
  {
    assert Has(s, c, s.phase[c].ticket);
    assert Taken(s, s.serving);
    var d: nat :| Has(s, d, s.serving);
    assert s.phase[d].Hold? || Enabled(s, Enter(d));
  }
}
