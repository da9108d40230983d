/** The magazines of one size class (kernel/mm/kmem.c) as a protocol of steps: `kmalloc` and `kfree` read the magazine of
    their CPU, use it with interrupts off, and swap it with the depot in two halves, the locked section and the change
    of the CPU's pointer. Between any two steps another thread may run, on the same CPU too. */
module MagazineSteps {
  import opened Magazines
  import opened Sequences

  /** Where a magazine belongs: to a CPU, in one of the depot's lists, or in the hand of a thread that is about to give it
      to its CPU. */
  datatype Home = OnCpu(c: nat) | Full | Empty | InHand(t: nat)

  /** Where a carved object is. */
  datatype Spot = InUse | InMag(m: nat) | Freeing(t: nat) | Dropped

  /** `c->magazines[idx]`. */
  datatype Ptr = Null | To(m: nat)

  datatype Kind = Malloc | Free(o: nat)

  /** How far a call has come: it has read nothing yet; holds the magazine it read; has found it empty or full; has no
      magazine to give the CPU yet (for the first time or in a swap); has one; and the same reading once more. */
  datatype Pc = Begin | Use(m: nat) | Swap | Taken(first: bool) | Hand(first: bool, m: nat) | Again | Last(m: nat)

  datatype Call = Call(c: nat, kind: Kind, pc: Pc)

  datatype State = State(cpu: map<nat, Ptr>, slots: map<nat, seq<nat>>, full: seq<nat>, empty: seq<nat>,
                         home: map<nat, Home>, spot: map<nat, Spot>, calls: map<nat, Call>)

  datatype Step = Start(t: nat, c: nat, kind: Kind) | Load(t: nat) | Access(t: nat) | Exchange(t: nat)
    | Take(t: nat, m: nat) | TakeNone(t: nat) | Fill(t: nat, o: nat) | Store(t: nat)

  // ----- steps -----

  predicate Enabled(s: State, st: Step) {
    match st
    case Start(t, c, kind) => t !in s.calls && c in s.cpu && (kind.Free? ==> kind.o in s.spot && s.spot[kind.o] == InUse)
    case Load(t) =>
      && t in s.calls && s.calls[t].c in s.cpu && (s.calls[t].pc.Begin? || s.calls[t].pc.Again?)
      && !(s.calls[t].pc.Again? && s.calls[t].kind.Free? && s.cpu[s.calls[t].c].Null?)
    case Access(t) => t in s.calls && (s.calls[t].pc.Use? || s.calls[t].pc.Last?) && s.calls[t].pc.m in s.slots
    case Exchange(t) => t in s.calls && s.calls[t].pc.Swap? && s.calls[t].c in s.cpu && s.cpu[s.calls[t].c].To?
    case Take(t, m) => t in s.calls && s.calls[t].pc.Taken? && (s.empty == [] ==> m !in s.slots)
    case TakeNone(t) => t in s.calls && s.calls[t].pc.Taken? && s.empty == []
    case Fill(t, o) =>
      && t in s.calls && s.calls[t].pc.Hand? && !s.calls[t].pc.first && s.calls[t].kind.Malloc? && o !in s.spot
      && s.calls[t].pc.m in s.slots && |s.slots[s.calls[t].pc.m]| < KMEM_MAG_CAPACITY
    case Store(t) => t in s.calls && s.calls[t].pc.Hand?
  }

  function At(s: State, t: nat, pc: Pc): map<nat, Call>
    requires t in s.calls
  {
    s.calls[t := s.calls[t].(pc := pc)]
  }

  function Apply(s: State, st: Step): State
    requires Enabled(s, st)
  {
    match st
    case Start(t, c, kind) =>
      s.(calls := s.calls[t := Call(c, kind, Begin)], spot := if kind.Free? then s.spot[kind.o := Freeing(t)] else s.spot)
    case Load(t) => Loaded(s, t)
    case Access(t) => if s.calls[t].kind.Malloc? then Popped(s, t) else Pushed(s, t)
    case Exchange(t) => if s.calls[t].kind.Malloc? then EmptySwapped(s, t) else FullSwapped(s, t)
    case Take(t, m) => InHands(s, t, m)
    case TakeNone(t) =>
      var k := s.calls[t];
      var s1 := s.(cpu := s.cpu[k.c := Null]);
      if !k.pc.first then s1.(calls := At(s, t, Again))
      else s1.(calls := s.calls - {t}, spot := if k.kind.Free? then s.spot[k.kind.o := Dropped] else s.spot)
    case Fill(t, o) =>
      var m := s.calls[t].pc.m;
      s.(slots := s.slots[m := s.slots[m] + [o]], spot := s.spot[o := InMag(m)])
    case Store(t) =>
      var k := s.calls[t];
      s.(cpu := s.cpu[k.c := To(k.pc.m)], home := s.home[k.pc.m := OnCpu(k.c)], calls := At(s, t, if k.pc.first then Begin else Again))
  }

  /** The call reads its CPU's magazine; one that finds none after a swap gives up. */
  function Loaded(s: State, t: nat): State
    requires Enabled(s, Load(t))
  {
    var k := s.calls[t];
    match s.cpu[k.c]
    case Null => if k.pc.Begin? then s.(calls := At(s, t, Taken(true))) else s.(calls := s.calls - {t})
    case To(m) => s.(calls := At(s, t, if k.pc.Begin? then Use(m) else Last(m)))
  }

  /** The last object of the magazine is handed out, if there is one. */
  function Popped(s: State, t: nat): State
    requires Enabled(s, Access(t))
  {
    var pc := s.calls[t].pc;
    var q := s.slots[pc.m];
    if q != [] then
      s.(slots := s.slots[pc.m := q[..|q| - 1]], spot := s.spot[q[|q| - 1] := InUse], calls := s.calls - {t})
    else if pc.Use? then s.(calls := At(s, t, Swap))
    else s.(calls := s.calls - {t})
  }

  /** The object is put in the magazine; after a swap the code no longer asks whether there is room. */
  function Pushed(s: State, t: nat): State
    requires Enabled(s, Access(t)) && s.calls[t].kind.Free?
  {
    var k := s.calls[t];
    if |s.slots[k.pc.m]| < KMEM_MAG_CAPACITY || k.pc.Last? then
      s.(slots := s.slots[k.pc.m := s.slots[k.pc.m] + [k.kind.o]], spot := s.spot[k.kind.o := InMag(k.pc.m)], calls := s.calls - {t})
    else s.(calls := At(s, t, Swap))
  }

  /** `kmem_magazine_swap_empty`, the locked section: the CPU's magazine joins the empty ones, and a full one, if any,
      becomes the CPU's at once. */
  function EmptySwapped(s: State, t: nat): State
    requires Enabled(s, Exchange(t))
  {
    var k := s.calls[t];
    var m := s.cpu[k.c].m;
    var s1 := s.(empty := s.empty + [m], home := s.home[m := Empty]);
    if s.full != [] then
      var f := s.full[|s.full| - 1];
      s1.(full := s.full[..|s.full| - 1], home := s1.home[f := OnCpu(k.c)], cpu := s.cpu[k.c := To(f)], calls := At(s, t, Again))
    else s1.(calls := At(s, t, Taken(false)))
  }

  /** `kmem_magazine_swap_full`, the locked section: the CPU's magazine joins the full ones, and an empty one, if any, is
      taken in hand. */
  function FullSwapped(s: State, t: nat): State
    requires Enabled(s, Exchange(t))
  {
    var k := s.calls[t];
    var m := s.cpu[k.c].m;
    var s1 := s.(full := s.full + [m], home := s.home[m := Full]);
    if s.empty != [] then
      var e := s.empty[|s.empty| - 1];
      s1.(empty := s.empty[..|s.empty| - 1], home := s1.home[e := InHand(t)], calls := At(s, t, Hand(false, e)))
    else s1.(calls := At(s, t, Taken(false)))
  }

  /** `kmem_get_empty_mag`: an empty magazine of the depot, or the new magazine `m`. */
  function InHands(s: State, t: nat, m: nat): State
    requires Enabled(s, Take(t, m))
  {
    var e := if s.empty != [] then s.empty[|s.empty| - 1] else m;
    s.(empty := if s.empty != [] then s.empty[..|s.empty| - 1] else [], slots := s.slots[e := []], home := s.home[e := InHand(t)],
       calls := At(s, t, Hand(s.calls[t].pc.first, e)))
  }

  // ----- the invariant -----

  /** `q` lists exactly the magazines at `h`, each once. */
  ghost predicate Lists(q: seq<nat>, home: map<nat, Home>, h: Home) {
    NoDup(q) && forall m :: m in q <==> m in home && home[m] == h
  }

  /** The depot's lists hold the magazines that belong there. */
  ghost predicate DepotOk(full: seq<nat>, empty: seq<nat>, home: map<nat, Home>) {
    Lists(full, home, Full) && Lists(empty, home, Empty)
  }

  /** A magazine that belongs to a CPU is the one the CPU points to. */
  ghost predicate CpusOk(cpu: map<nat, Ptr>, home: map<nat, Home>) {
    forall m :: m in home && home[m].OnCpu? ==> home[m].c in cpu && cpu[home[m].c] == To(m)
  }

  /** A magazine in hand is in the hand of one call. */
  ghost predicate HandsOk(home: map<nat, Home>, calls: map<nat, Call>) {
    && (forall m :: m in home && home[m].InHand? ==>
          var t := home[m].t; t in calls && calls[t].pc.Hand? && calls[t].pc.m == m)
    && forall t :: t in calls && calls[t].pc.Hand? ==> calls[t].pc.m in home && home[calls[t].pc.m] == InHand(t)
  }

  /** Magazine `m` holds exactly the objects that are in it, each once. */
  ghost predicate HoldsSpots(q: seq<nat>, spot: map<nat, Spot>, m: nat) {
    NoDup(q) && forall o :: o in q <==> o in spot && spot[o] == InMag(m)
  }

  ghost predicate Filled(slots: map<nat, seq<nat>>, spot: map<nat, Spot>) {
    && (forall m :: m in slots ==> |slots[m]| <= KMEM_MAG_CAPACITY && HoldsSpots(slots[m], spot, m))
    && forall o :: o in spot && spot[o].InMag? ==> spot[o].m in slots
  }

  /** Full magazines are full and empty ones empty. */
  ghost predicate DepotFilled(slots: map<nat, seq<nat>>, home: map<nat, Home>) {
    && slots.Keys == home.Keys
    && (forall m :: m in home && home[m] == Full ==> |slots[m]| == KMEM_MAG_CAPACITY)
    && forall m :: m in home && home[m] == Empty ==> slots[m] == []
  }

  /** An object on its way back is in the hand of one call. */
  ghost predicate FreeingOk(spot: map<nat, Spot>, calls: map<nat, Call>) {
    && (forall t :: t in calls && calls[t].kind.Free? ==> calls[t].kind.o in spot && spot[calls[t].kind.o] == Freeing(t))
    && forall o :: o in spot && spot[o].Freeing? ==> var t := spot[o].t; t in calls && calls[t].kind == Free(o)
  }

  /** Thread `t` is between the two halves of a swap, or getting its CPU the first magazine. */
  predicate Mid(calls: map<nat, Call>, t: nat) {
    t in calls && (calls[t].pc.Taken? || calls[t].pc.Hand?)
  }

  ghost predicate MidOn(calls: map<nat, Call>, c: nat) {
    exists t :: Mid(calls, t) && calls[t].c == c
  }

  /** Thread `t` holds a magazine it has read. */
  predicate Holding(calls: map<nat, Call>, t: nat) {
    t in calls && (calls[t].pc.Use? || calls[t].pc.Last?)
  }

  /** At most one swap is under way on a CPU. */
  ghost predicate MidOnce(calls: map<nat, Call>) {
    forall t, u :: Mid(calls, t) && Mid(calls, u) && calls[t].c == calls[u].c ==> t == u
  }

  /** A CPU's pointer is right except in the middle of a swap. */
  ghost predicate PointersOk(cpu: map<nat, Ptr>, home: map<nat, Home>, calls: map<nat, Call>) {
    && (forall t :: t in calls ==> calls[t].c in cpu)
    && (forall c :: c in cpu && cpu[c].To? && !MidOn(calls, c) ==> cpu[c].m in home && home[cpu[c].m] == OnCpu(c))
    && forall m :: m in home && home[m].OnCpu? ==> !MidOn(calls, home[m].c)
  }

  /** No thread holds a magazine that has left its CPU. */
  ghost predicate HeldOk(home: map<nat, Home>, calls: map<nat, Call>) {
    forall t :: Holding(calls, t) ==> calls[t].pc.m in home && home[calls[t].pc.m] == OnCpu(calls[t].c)
  }

  /** Every magazine is in one place, every carved object is in one place, and the depot's full magazines are full. */
  ghost predicate Inv(s: State) {
    && DepotOk(s.full, s.empty, s.home) && CpusOk(s.cpu, s.home) && HandsOk(s.home, s.calls)
    && Filled(s.slots, s.spot) && DepotFilled(s.slots, s.home) && FreeingOk(s.spot, s.calls)
    && MidOnce(s.calls) && PointersOk(s.cpu, s.home, s.calls) && HeldOk(s.home, s.calls)
  }

  // ----- the steps that break it -----

  /** The magazine the CPU points to is not the empty or full one the call found. */
  predicate Changed(s: State, t: nat)
    requires Enabled(s, Exchange(t))
  {
    var m := s.cpu[s.calls[t].c].m;
    m in s.slots && if s.calls[t].kind.Malloc? then s.slots[m] != [] else |s.slots[m]| != KMEM_MAG_CAPACITY
  }

  ghost predicate HeldOn(calls: map<nat, Call>, c: nat) {
    exists u :: Holding(calls, u) && calls[u].c == c
  }

  /** A magazine is read or swapped between the two halves of a swap on that CPU, or swapped while another thread of the
      CPU holds it or after it has changed, or an object is put in a magazine that has filled up again. */
  ghost predicate Unsafe(s: State, st: Step) {
    Enabled(s, st) &&
    match st
    case Load(t) => MidOn(s.calls, s.calls[t].c) && !(s.calls[t].pc.Again? && s.cpu[s.calls[t].c].Null?)
    case Access(t) => s.calls[t].kind.Free? && s.calls[t].pc.Last? && |s.slots[s.calls[t].pc.m]| >= KMEM_MAG_CAPACITY
    case Exchange(t) => MidOn(s.calls, s.calls[t].c) || HeldOn(s.calls, s.calls[t].c) || Changed(s, t)
    case _ => false
  }

  // ----- lists -----

  lemma ListsAppend(q: seq<nat>, home: map<nat, Home>, h: Home, m: nat)
    requires Lists(q, home, h) && (m in home ==> home[m] != h)
    ensures Lists(q + [m], home[m := h], h)
  {
  }

  lemma ListsOther(q: seq<nat>, home: map<nat, Home>, h: Home, m: nat, g: Home)
    requires Lists(q, home, h) && g != h && (m in home ==> home[m] != h)
    ensures Lists(q, home[m := g], h)
  {
  }

  lemma ListsLast(q: seq<nat>, home: map<nat, Home>, h: Home, g: Home)
    requires Lists(q, home, h) && q != [] && g != h
    ensures q[|q| - 1] in home && home[q[|q| - 1]] == h && Lists(q[..|q| - 1], home[q[|q| - 1] := g], h)
  {
    var m, r := q[|q| - 1], q[..|q| - 1];
    assert m in q;
    forall x ensures x in r <==> x in q && x != m {
      if x in q && x != m {
        var i :| 0 <= i < |q| && q[i] == x;
        assert r[i] == x;
      }
    }
  }

  // ----- calls -----

  /** The same calls are in the middle of a swap, on the same CPUs. */
  ghost predicate SameMids(calls: map<nat, Call>, calls': map<nat, Call>) {
    forall u :: (Mid(calls, u) <==> Mid(calls', u)) && (Mid(calls, u) ==> calls'[u].c == calls[u].c)
  }

  lemma SameMidOn(calls: map<nat, Call>, calls': map<nat, Call>, c: nat)
    requires SameMids(calls, calls')
    ensures MidOn(calls', c) <==> MidOn(calls, c)
  {
    if MidOn(calls, c) { var u :| Mid(calls, u) && calls[u].c == c; assert Mid(calls', u); }
    if MidOn(calls', c) { var u :| Mid(calls', u) && calls'[u].c == c; assert Mid(calls, u); }
  }

  lemma QuietMids(cpu: map<nat, Ptr>, home: map<nat, Home>, calls: map<nat, Call>, calls': map<nat, Call>)
    requires MidOnce(calls) && PointersOk(cpu, home, calls) && SameMids(calls, calls') && forall t :: t in calls' ==> calls'[t].c in cpu
    ensures MidOnce(calls') && PointersOk(cpu, home, calls')
  {
    forall c ensures MidOn(calls', c) <==> MidOn(calls, c) { SameMidOn(calls, calls', c); }
    assert MidOnce(calls');
    hide MidOn, MidOnce, SameMids;
  }

  /** Call `t` comes into the middle of a swap on a CPU where none is under way and to which no magazine belongs. */
  lemma EnterMid(cpu: map<nat, Ptr>, home: map<nat, Home>, calls: map<nat, Call>, t: nat, pc: Pc)
    requires MidOnce(calls) && t in calls && !Mid(calls, t) && !MidOn(calls, calls[t].c) && (pc.Taken? || pc.Hand?)
    requires forall u :: u in calls ==> calls[u].c in cpu
    requires forall d :: d in cpu && d != calls[t].c && cpu[d].To? && !MidOn(calls, d) ==> cpu[d].m in home && home[cpu[d].m] == OnCpu(d)
    requires forall m :: m in home && home[m].OnCpu? ==> home[m].c != calls[t].c && !MidOn(calls, home[m].c)
    ensures var calls' := calls[t := calls[t].(pc := pc)]; MidOnce(calls') && PointersOk(cpu, home, calls')
  {
    var c, calls' := calls[t].c, calls[t := calls[t].(pc := pc)];
    assert Mid(calls', t);
    forall d ensures MidOn(calls', d) <==> MidOn(calls, d) || d == c {
      if MidOn(calls, d) { var u :| Mid(calls, u) && calls[u].c == d; assert Mid(calls', u); }
      if MidOn(calls', d) { var u :| Mid(calls', u) && calls'[u].c == d; assert u != t ==> Mid(calls, u); }
    }
    forall u, v | Mid(calls', u) && Mid(calls', v) && calls'[u].c == calls'[v].c ensures u == v {
      assert u != t ==> Mid(calls, u);
      assert v != t ==> Mid(calls, v);
    }
    hide MidOn;
  }

  /** Call `t`, the only one in the middle of a swap on its CPU, is no longer so. */
  lemma LeaveMid(cpu: map<nat, Ptr>, home: map<nat, Home>, calls: map<nat, Call>, calls': map<nat, Call>, t: nat)
    requires MidOnce(calls) && Mid(calls, t) && !Mid(calls', t)
    requires forall u :: u in calls' ==> u in calls && calls'[u].c == calls[u].c && calls[u].c in cpu
    requires forall u :: u in calls && u != t ==> u in calls' && calls'[u] == calls[u]
    requires forall d :: d in cpu && cpu[d].To? && (d == calls[t].c || !MidOn(calls, d)) ==> cpu[d].m in home && home[cpu[d].m] == OnCpu(d)
    requires forall m :: m in home && home[m].OnCpu? ==> home[m].c == calls[t].c || !MidOn(calls, home[m].c)
    ensures MidOnce(calls') && PointersOk(cpu, home, calls')
  {
    var c := calls[t].c;
    forall u ensures Mid(calls', u) <==> Mid(calls, u) && u != t { }
    forall d ensures MidOn(calls', d) <==> MidOn(calls, d) && d != c {
      if MidOn(calls, d) && d != c { var u :| Mid(calls, u) && calls[u].c == d; assert Mid(calls', u); }
      if MidOn(calls', d) { var u :| Mid(calls', u) && calls'[u].c == d; assert Mid(calls, u); }
    }
    assert MidOnce(calls');
    hide MidOn, MidOnce;
  }

  /** A call moves on or ends without being in the middle of a swap before or after. */
  lemma MoveCalls(s: State, t: nat, calls': map<nat, Call>)
    requires Inv(s) && t in s.calls && !Mid(s.calls, t) && !Mid(calls', t)
    requires calls' == s.calls - {t} || (t in calls' && calls' == s.calls[t := calls'[t]] && calls'[t].c == s.calls[t].c)
    requires Holding(calls', t) ==> calls'[t].pc.m in s.home && s.home[calls'[t].pc.m] == OnCpu(calls'[t].c)
    ensures HandsOk(s.home, calls') && MidOnce(calls') && PointersOk(s.cpu, s.home, calls') && HeldOk(s.home, calls')
  {
    hide DepotOk, CpusOk, Filled, DepotFilled, FreeingOk;
    assert forall u :: u != t ==> (Mid(calls', u) <==> Mid(s.calls, u)) && (Holding(calls', u) <==> Holding(s.calls, u));
    assert HeldOk(s.home, calls') && HandsOk(s.home, calls');
    hide HeldOk, HandsOk, MidOn;
    QuietMids(s.cpu, s.home, s.calls, calls');
  }

  lemma CallOn(s: State, t: nat)
    requires Inv(s) && t in s.calls
    ensures s.calls[t].c in s.cpu
  {
    hide DepotOk, CpusOk, Filled, DepotFilled, FreeingOk, HandsOk, MidOnce, HeldOk, MidOn;
  }

  // ----- objects -----

  /** An object moves between places that are no magazines. */
  lemma SpotAside(slots: map<nat, seq<nat>>, spot: map<nat, Spot>, o: nat, v: Spot)
    requires Filled(slots, spot) && (o in spot ==> !spot[o].InMag?) && !v.InMag?
    ensures Filled(slots, spot[o := v])
  {
  }

  lemma PushFilled(slots: map<nat, seq<nat>>, spot: map<nat, Spot>, m: nat, o: nat)
    requires Filled(slots, spot) && m in slots && |slots[m]| < KMEM_MAG_CAPACITY && (o in spot ==> !spot[o].InMag?)
    ensures Filled(slots[m := slots[m] + [o]], spot[o := InMag(m)])
  {
    var slots', spot' := slots[m := slots[m] + [o]], spot[o := InMag(m)];
    forall n | n in slots' ensures HoldsSpots(slots'[n], spot', n) {
      assert HoldsSpots(slots[n], spot, n);
    }
  }

  lemma PopFilled(slots: map<nat, seq<nat>>, spot: map<nat, Spot>, m: nat)
    requires Filled(slots, spot) && m in slots && slots[m] != []
    ensures var q := slots[m]; var o := q[|q| - 1];
            o in spot && spot[o] == InMag(m) && Filled(slots[m := q[..|q| - 1]], spot[o := InUse])
  {
    var q := slots[m];
    var o, r := q[|q| - 1], q[..|q| - 1];
    assert HoldsSpots(q, spot, m) && o in q;
    var slots', spot' := slots[m := r], spot[o := InUse];
    forall x ensures x in r <==> x in q && x != o {
      if x in q && x != o {
        var i :| 0 <= i < |q| && q[i] == x;
        assert r[i] == x;
      }
    }
    forall n | n in slots' ensures HoldsSpots(slots'[n], spot', n) {
      assert HoldsSpots(slots[n], spot, n);
    }
  }

  // ----- the steps, one by one -----

  /** The objects on their way back, when a call moves on or an allocation ends. */
  lemma FreeingMove(spot: map<nat, Spot>, calls: map<nat, Call>, t: nat, calls': map<nat, Call>)
    requires FreeingOk(spot, calls) && t in calls
    requires (t in calls' && calls' == calls[t := calls'[t]] && calls'[t].kind == calls[t].kind) || (calls' == calls - {t} && calls[t].kind.Malloc?)
    ensures FreeingOk(spot, calls')
  {
  }

  /** A new call has read nothing and has nothing in hand. */
  lemma NewCall(cpu: map<nat, Ptr>, home: map<nat, Home>, calls: map<nat, Call>, t: nat, k: Call)
    requires HandsOk(home, calls) && HeldOk(home, calls) && MidOnce(calls) && PointersOk(cpu, home, calls)
    requires t !in calls && k.pc.Begin? && k.c in cpu
    ensures var calls' := calls[t := k];
            HandsOk(home, calls') && HeldOk(home, calls') && MidOnce(calls') && PointersOk(cpu, home, calls')
  {
    var calls' := calls[t := k];
    assert forall u :: (Mid(calls', u) <==> Mid(calls, u)) && (Holding(calls', u) <==> Holding(calls, u));
    assert HandsOk(home, calls') && HeldOk(home, calls');
    hide HandsOk, HeldOk, MidOn;
    QuietMids(cpu, home, calls, calls');
  }

  lemma NewFreeing(spot: map<nat, Spot>, calls: map<nat, Call>, t: nat, k: Call)
    requires FreeingOk(spot, calls) && t !in calls && (k.kind.Free? ==> k.kind.o in spot && spot[k.kind.o] == InUse)
    ensures FreeingOk(if k.kind.Free? then spot[k.kind.o := Freeing(t)] else spot, calls[t := k])
  {
  }

  lemma StartInv(s: State, st: Step)
    requires Inv(s) && Enabled(s, st) && st.Start?
    ensures Inv(Apply(s, st))
  {
    hide DepotOk, CpusOk, HandsOk, Filled, DepotFilled, FreeingOk, MidOnce, PointersOk, HeldOk;
    var k := Call(st.c, st.kind, Begin);
    if st.kind.Free? { SpotAside(s.slots, s.spot, st.kind.o, Freeing(st.t)); }
    NewCall(s.cpu, s.home, s.calls, st.t, k);
    NewFreeing(s.spot, s.calls, st.t, k);
  }

  lemma LoadSafe(s: State, t: nat)
    requires Inv(s) && Enabled(s, Load(t)) && !Unsafe(s, Load(t))
    ensures Inv(Loaded(s, t))
  {
    hide DepotOk, CpusOk, HandsOk, Filled, DepotFilled, FreeingOk, MidOnce, PointersOk, HeldOk, MidOn;
    var s', k := Loaded(s, t), s.calls[t];
    FreeingMove(s.spot, s.calls, t, s'.calls);
    if s.cpu[k.c].Null? && k.pc.Begin? {
      FirstMagazine(s, t);
    } else {
      if s.cpu[k.c].To? { PointsHome(s, k.c); }
      MoveCalls(s, t, s'.calls);
    }
  }

  /** Outside a swap the CPU's pointer is right. */
  lemma PointsHome(s: State, c: nat)
    requires Inv(s) && c in s.cpu && s.cpu[c].To? && !MidOn(s.calls, c)
    ensures s.cpu[c].m in s.home && s.home[s.cpu[c].m] == OnCpu(c) && s.cpu[c].m in s.slots
  {
    hide DepotOk, CpusOk, HandsOk, Filled, FreeingOk, MidOnce, HeldOk, MidOn;
  }

  /** A call that finds no magazine goes to get one. */
  lemma FirstMagazine(s: State, t: nat)
    requires Inv(s) && t in s.calls && s.calls[t].pc.Begin? && s.calls[t].c in s.cpu && s.cpu[s.calls[t].c].Null? && !MidOn(s.calls, s.calls[t].c)
    ensures var calls' := At(s, t, Taken(true));
            HandsOk(s.home, calls') && HeldOk(s.home, calls') && MidOnce(calls') && PointersOk(s.cpu, s.home, calls')
  {
    hide DepotOk, Filled, DepotFilled, FreeingOk;
    var calls' := At(s, t, Taken(true));
    HandsMove(s.home, s.calls, t, Taken(true));
    HeldMove(s.home, s.calls, t, Taken(true));
    hide HandsOk, HeldOk, MidOnce, MidOn;
    EnterMid(s.cpu, s.home, s.calls, t, Taken(true));
  }

  lemma HandsMove(home: map<nat, Home>, calls: map<nat, Call>, t: nat, pc: Pc)
    requires HandsOk(home, calls) && t in calls && !calls[t].pc.Hand? && !pc.Hand?
    ensures HandsOk(home, calls[t := calls[t].(pc := pc)])
  {
  }

  lemma HeldMove(home: map<nat, Home>, calls: map<nat, Call>, t: nat, pc: Pc)
    requires HeldOk(home, calls) && t in calls && !pc.Use? && !pc.Last?
    ensures HeldOk(home, calls[t := calls[t].(pc := pc)])
  {
    assert forall u :: u != t ==> (Holding(calls[t := calls[t].(pc := pc)], u) <==> Holding(calls, u));
  }

  lemma LoadBreaks(s: State, t: nat)
    requires Inv(s) && Unsafe(s, Load(t))
    ensures !Inv(Loaded(s, t))
  {
    hide DepotOk, Filled, DepotFilled, FreeingOk, CpusOk, HandsOk;
    var s', k := Loaded(s, t), s.calls[t];
    var u :| Mid(s.calls, u) && s.calls[u].c == k.c;
    assert Mid(s'.calls, u) && u != t;
    assert MidOn(s'.calls, k.c);
    if s.cpu[k.c].Null? { assert Mid(s'.calls, t); } else { assert Holding(s'.calls, t); }
  }

  // Using a magazine.

  /** A magazine a thread holds is its CPU's, so no list of the depot depends on what is in it. */
  lemma HeldHome(s: State, t: nat)
    requires Inv(s) && Holding(s.calls, t)
    ensures s.calls[t].pc.m in s.home && s.home[s.calls[t].pc.m] == OnCpu(s.calls[t].c)
  {
    hide DepotOk, CpusOk, HandsOk, Filled, DepotFilled, FreeingOk, MidOnce, PointersOk;
  }

  lemma DepotFilledMove(slots: map<nat, seq<nat>>, home: map<nat, Home>, m: nat, q: seq<nat>)
    requires DepotFilled(slots, home) && m in home && home[m] != Full && home[m] != Empty
    ensures DepotFilled(slots[m := q], home)
  {
  }

  /** Other objects than those on their way back move. */
  lemma FreeingAside(spot: map<nat, Spot>, calls: map<nat, Call>, o: nat, v: Spot)
    requires FreeingOk(spot, calls) && (o in spot ==> !spot[o].Freeing?) && !v.Freeing?
    ensures FreeingOk(spot[o := v], calls)
  {
  }

  /** The object arrives and the call ends. */
  lemma FreeingEnds(spot: map<nat, Spot>, calls: map<nat, Call>, t: nat, v: Spot)
    requires FreeingOk(spot, calls) && t in calls && calls[t].kind.Free? && !v.Freeing?
    ensures calls[t].kind.o in spot && spot[calls[t].kind.o] == Freeing(t)
    ensures FreeingOk(spot[calls[t].kind.o := v], calls - {t})
  {
  }

  lemma PopInv(s: State, t: nat)
    requires Inv(s) && Enabled(s, Access(t)) && s.calls[t].kind.Malloc?
    ensures Inv(Popped(s, t))
  {
    hide DepotOk, CpusOk, HandsOk, Filled, DepotFilled, FreeingOk, MidOnce, PointersOk, HeldOk;
    var s', m := Popped(s, t), s.calls[t].pc.m;
    var q := s.slots[m];
    HeldHome(s, t);
    MoveCalls(s, t, s'.calls);
    FreeingMove(s.spot, s.calls, t, s'.calls);
    if q != [] {
      PopFilled(s.slots, s.spot, m);
      DepotFilledMove(s.slots, s.home, m, q[..|q| - 1]);
      FreeingAside(s.spot, s'.calls, q[|q| - 1], InUse);
    }
  }

  lemma PushSafe(s: State, t: nat)
    requires Inv(s) && Enabled(s, Access(t)) && s.calls[t].kind.Free? && !Unsafe(s, Access(t))
    ensures Inv(Pushed(s, t))
  {
    hide DepotOk, CpusOk, HandsOk, Filled, DepotFilled, FreeingOk, MidOnce, PointersOk, HeldOk;
    var s', k := Pushed(s, t), s.calls[t];
    HeldHome(s, t);
    MoveCalls(s, t, s'.calls);
    if |s.slots[k.pc.m]| < KMEM_MAG_CAPACITY {
      FreeingEnds(s.spot, s.calls, t, InMag(k.pc.m));
      PushFilled(s.slots, s.spot, k.pc.m, k.kind.o);
      DepotFilledMove(s.slots, s.home, k.pc.m, s.slots[k.pc.m] + [k.kind.o]);
    } else {
      FreeingMove(s.spot, s.calls, t, s'.calls);
    }
  }

  lemma PushBreaks(s: State, t: nat)
    requires Inv(s) && Unsafe(s, Access(t))
    ensures !Inv(Pushed(s, t))
  {
    hide DepotOk, CpusOk, HandsOk, DepotFilled, FreeingOk, MidOnce, PointersOk, HeldOk;
    var m := s.calls[t].pc.m;
    assert |Pushed(s, t).slots[m]| == |s.slots[m]| + 1;
  }

  // The locked section of a swap.

  /** A magazine moves between places that are not hands. */
  lemma HandsAside(home: map<nat, Home>, calls: map<nat, Call>, m: nat, h: Home)
    requires HandsOk(home, calls) && (m in home ==> !home[m].InHand?) && !h.InHand?
    ensures HandsOk(home[m := h], calls)
  {
  }

  lemma HeldAside(home: map<nat, Home>, calls: map<nat, Call>, m: nat, h: Home)
    requires HeldOk(home, calls) && (m in home && home[m].OnCpu? ==> !HeldOn(calls, home[m].c))
    ensures HeldOk(home[m := h], calls)
  {
    forall t | Holding(calls, t) ensures var n := calls[t].pc.m; n in home && home[n] == OnCpu(calls[t].c) && n != m {
      assert HeldOn(calls, calls[t].c);
    }
  }

  /** The CPU's magazine leaves it. */
  lemma CpusLeave(cpu: map<nat, Ptr>, home: map<nat, Home>, m: nat, h: Home)
    requires CpusOk(cpu, home) && !h.OnCpu?
    ensures CpusOk(cpu, home[m := h])
  {
  }

  /** No magazine belongs to CPU `c`. */
  ghost predicate NoneOn(home: map<nat, Home>, c: nat) {
    forall n :: n in home ==> home[n] != OnCpu(c)
  }

  /** Another magazine becomes the CPU's, to which none belongs. */
  lemma CpusArrive(cpu: map<nat, Ptr>, home: map<nat, Home>, m: nat, c: nat)
    requires CpusOk(cpu, home) && NoneOn(home, c)
    ensures CpusOk(cpu[c := To(m)], home[m := OnCpu(c)])
  {
  }

  /** The magazine of CPU `c` is the only one that belongs to it. */
  lemma OneOnCpu(s: State, c: nat, m: nat, h: Home)
    requires Inv(s) && c in s.cpu && s.cpu[c] == To(m) && !h.OnCpu?
    ensures NoneOn(s.home[m := h], c)
  {
    hide DepotOk, HandsOk, Filled, DepotFilled, FreeingOk, MidOnce, PointersOk, HeldOk;
  }

  /** What the swap finds when it is safe. */
  ghost predicate Swappable(s: State, t: nat, m: nat) {
    && t in s.calls && s.calls[t].pc.Swap? && s.calls[t].c in s.cpu && s.cpu[s.calls[t].c] == To(m)
    && !MidOn(s.calls, s.calls[t].c) && !HeldOn(s.calls, s.calls[t].c)
  }

  /** The pieces of the invariant after the CPU's magazine has gone to a list of the depot. */
  lemma Leaves(s: State, t: nat, m: nat, h: Home)
    requires Inv(s) && Swappable(s, t, m) && (h == Full || h == Empty)
    ensures m in s.home && s.home[m] == OnCpu(s.calls[t].c) && m in s.slots
    ensures CpusOk(s.cpu, s.home[m := h]) && HandsOk(s.home[m := h], s.calls) && HeldOk(s.home[m := h], s.calls)
    ensures NoneOn(s.home[m := h], s.calls[t].c)
  {
    PointsHome(s, s.calls[t].c);
    CpusLeave(s.cpu, s.home, m, h);
    HandsAside(s.home, s.calls, m, h);
    HeldAside(s.home, s.calls, m, h);
    OneOnCpu(s, s.calls[t].c, m, h);
  }

  /** The call is left without a magazine for the CPU, or with one in hand. */
  lemma SwapMid(s: State, t: nat, m: nat, h: Home, pc: Pc)
    requires Inv(s) && Swappable(s, t, m) && (h == Full || h == Empty) && (pc.Taken? || pc.Hand?)
    ensures var calls' := At(s, t, pc); MidOnce(calls') && PointersOk(s.cpu, s.home[m := h], calls')
  {
    PointsHome(s, s.calls[t].c);
    OneOnCpu(s, s.calls[t].c, m, h);
    hide DepotOk, HandsOk, Filled, DepotFilled, FreeingOk, HeldOk, CpusOk, MidOn, MidOnce;
    EnterMid(s.cpu, s.home[m := h], s.calls, t, pc);
  }

  /** `kmem_magazine_swap_empty` finds no full magazine. */
  lemma EmptyToTaken(s: State, t: nat, m: nat)
    requires Inv(s) && Swappable(s, t, m) && s.calls[t].kind.Malloc? && m in s.slots && s.slots[m] == [] && s.full == []
    ensures Inv(EmptySwapped(s, t))
  {
    hide CpusOk, HandsOk, Filled, FreeingOk, MidOnce, PointersOk, HeldOk, Lists, Swappable, MidOn;
    assert t in s.calls && s.calls[t].pc.Swap? && s.calls[t].c in s.cpu && s.cpu[s.calls[t].c] == To(m) by { SwappableIs(s, t, m); }
    var home' := s.home[m := Empty];
    Leaves(s, t, m, Empty);
    ListsAppend(s.empty, s.home, Empty, m);
    ListsOther(s.full, s.home, Full, m, Empty);
    SwapMid(s, t, m, Empty, Taken(false));
    HandsMove(home', s.calls, t, Taken(false));
    HeldMove(home', s.calls, t, Taken(false));
    FreeingMove(s.spot, s.calls, t, At(s, t, Taken(false)));
  }

  lemma SwappableIs(s: State, t: nat, m: nat)
    requires Swappable(s, t, m)
    ensures t in s.calls && s.calls[t].pc.Swap? && s.calls[t].c in s.cpu && s.cpu[s.calls[t].c] == To(m)
  {
  }

  /** It finds one, which becomes the CPU's. */
  lemma EmptyToFull(s: State, t: nat, m: nat)
    requires Inv(s) && Swappable(s, t, m) && s.calls[t].kind.Malloc? && m in s.slots && s.slots[m] == [] && s.full != []
    ensures Inv(EmptySwapped(s, t))
  {
    hide HandsOk, Filled, FreeingOk, MidOnce, PointersOk, HeldOk, CpusOk, Lists, Swappable, MidOn, HeldOn;
    SwappableIs(s, t, m);
    var c, home1, f := s.calls[t].c, s.home[m := Empty], s.full[|s.full| - 1];
    Leaves(s, t, m, Empty);
    ListsAppend(s.empty, s.home, Empty, m);
    ListsOther(s.full, s.home, Full, m, Empty);
    ListsLast(s.full, home1, Full, OnCpu(c));
    ListsOther(s.empty + [m], home1, Empty, f, OnCpu(c));
    CpusArrive(s.cpu, home1, f, c);
    HandsAside(home1, s.calls, f, OnCpu(c));
    HeldAside(home1, s.calls, f, OnCpu(c));
    HandsMove(home1[f := OnCpu(c)], s.calls, t, Again);
    HeldMove(home1[f := OnCpu(c)], s.calls, t, Again);
    FreeingMove(s.spot, s.calls, t, At(s, t, Again));
    Arrives(s, t, m, f);
  }

  lemma Arrives(s: State, t: nat, m: nat, f: nat)
    requires Inv(s) && Swappable(s, t, m) && f in s.home && s.home[f] == Full
    ensures var c, calls' := s.calls[t].c, At(s, t, Again);
            MidOnce(calls') && PointersOk(s.cpu[c := To(f)], s.home[m := Empty][f := OnCpu(c)], calls')
  {
    hide DepotOk, HandsOk, Filled, DepotFilled, FreeingOk, HeldOk, CpusOk, MidOnce, PointersOk, MidOn;
    PointsHome(s, s.calls[t].c);
    MoveCalls(s, t, At(s, t, Again));
    QuietOn(s.calls, t, Again);
    ArrivesAt(s.cpu, s.home, At(s, t, Again), m, f, s.calls[t].c);
  }

  lemma QuietOn(calls: map<nat, Call>, t: nat, pc: Pc)
    requires t in calls && !Mid(calls, t) && !pc.Taken? && !pc.Hand?
    ensures MidOn(calls[t := calls[t].(pc := pc)], calls[t].c) <==> MidOn(calls, calls[t].c)
  {
    SameMidOn(calls, calls[t := calls[t].(pc := pc)], calls[t].c);
  }

  lemma ArrivesAt(cpu: map<nat, Ptr>, home: map<nat, Home>, calls: map<nat, Call>, m: nat, f: nat, c: nat)
    requires PointersOk(cpu, home, calls) && !MidOn(calls, c) && m in home && home[m] == OnCpu(c) && f in home && home[f] == Full
    ensures PointersOk(cpu[c := To(f)], home[m := Empty][f := OnCpu(c)], calls)
  {
    hide MidOn;
  }

  /** A magazine comes into the hand of call `t`. */
  lemma HandsTake(home: map<nat, Home>, calls: map<nat, Call>, t: nat, e: nat, first: bool)
    requires HandsOk(home, calls) && (e in home ==> !home[e].InHand?) && t in calls && !calls[t].pc.Hand?
    ensures HandsOk(home[e := InHand(t)], calls[t := calls[t].(pc := Hand(first, e))])
  {
  }

  lemma PointersAside(cpu: map<nat, Ptr>, home: map<nat, Home>, calls: map<nat, Call>, e: nat, h: Home)
    requires PointersOk(cpu, home, calls) && (e in home ==> !home[e].OnCpu?) && !h.OnCpu?
    ensures PointersOk(cpu, home[e := h], calls)
  {
    hide MidOn;
  }

  /** `kmem_magazine_swap_full` finds no empty magazine. */
  lemma FullToTaken(s: State, t: nat, m: nat)
    requires Inv(s) && Swappable(s, t, m) && s.calls[t].kind.Free? && m in s.slots && |s.slots[m]| == KMEM_MAG_CAPACITY && s.empty == []
    ensures Inv(FullSwapped(s, t))
  {
    hide CpusOk, HandsOk, Filled, FreeingOk, MidOnce, PointersOk, HeldOk, Lists, Swappable, MidOn;
    SwappableIs(s, t, m);
    var home' := s.home[m := Full];
    Leaves(s, t, m, Full);
    ListsAppend(s.full, s.home, Full, m);
    ListsOther(s.empty, s.home, Empty, m, Full);
    SwapMid(s, t, m, Full, Taken(false));
    HandsMove(home', s.calls, t, Taken(false));
    HeldMove(home', s.calls, t, Taken(false));
    FreeingMove(s.spot, s.calls, t, At(s, t, Taken(false)));
  }

  /** It finds one and takes it in hand. */
  lemma FullToHand(s: State, t: nat, m: nat)
    requires Inv(s) && Swappable(s, t, m) && s.calls[t].kind.Free? && m in s.slots && |s.slots[m]| == KMEM_MAG_CAPACITY && s.empty != []
    ensures Inv(FullSwapped(s, t))
  {
    hide CpusOk, HandsOk, Filled, FreeingOk, MidOnce, PointersOk, HeldOk, Lists, Swappable, MidOn, HeldOn;
    SwappableIs(s, t, m);
    var home1, e := s.home[m := Full], s.empty[|s.empty| - 1];
    var pc := Hand(false, e);
    Leaves(s, t, m, Full);
    ListsAppend(s.full, s.home, Full, m);
    ListsOther(s.empty, s.home, Empty, m, Full);
    ListsLast(s.empty, home1, Empty, InHand(t));
    ListsOther(s.full + [m], home1, Full, e, InHand(t));
    CpusLeave(s.cpu, home1, e, InHand(t));
    HandsTake(home1, s.calls, t, e, false);
    HeldAside(home1, s.calls, e, InHand(t));
    HeldMove(home1[e := InHand(t)], s.calls, t, pc);
    SwapMid(s, t, m, Full, pc);
    PointersAside(s.cpu, home1, At(s, t, pc), e, InHand(t));
    FreeingMove(s.spot, s.calls, t, At(s, t, pc));
  }

  lemma ExchangeSafe(s: State, t: nat)
    requires Inv(s) && Enabled(s, Exchange(t)) && !Unsafe(s, Exchange(t))
    ensures Inv(Apply(s, Exchange(t)))
  {
    hide DepotOk, CpusOk, HandsOk, Filled, DepotFilled, FreeingOk, MidOnce, PointersOk, HeldOk, MidOn, HeldOn, EmptySwapped, FullSwapped;
    var c := s.calls[t].c;
    var m := s.cpu[c].m;
    PointsHome(s, c);
    assert Swappable(s, t, m);
    if s.calls[t].kind.Malloc? {
      if s.full == [] { EmptyToTaken(s, t, m); } else { EmptyToFull(s, t, m); }
    } else {
      if s.empty == [] { FullToTaken(s, t, m); } else { FullToHand(s, t, m); }
    }
  }

  /** A swap between the halves of another leaves two under way on the CPU, or a magazine to it in the middle of one. */
  lemma ExchangeTwice(s: State, t: nat)
    requires Inv(s) && Enabled(s, Exchange(t)) && MidOn(s.calls, s.calls[t].c)
    ensures !Inv(Apply(s, Exchange(t)))
  {
    hide DepotOk, CpusOk, HandsOk, Filled, DepotFilled, FreeingOk, HeldOk;
    var s', c := Apply(s, Exchange(t)), s.calls[t].c;
    var u :| Mid(s.calls, u) && s.calls[u].c == c;
    assert u != t && Mid(s'.calls, u) && s'.calls[u].c == c;
    assert MidOn(s'.calls, c);
    if s'.calls[t].pc.Again? {
      var f := s.full[|s.full| - 1];
      assert f in s'.home && s'.home[f] == OnCpu(c);
    } else {
      assert Mid(s'.calls, t);
    }
  }

  /** Where the CPU's magazine is after the locked section. */
  lemma ExchangeHome(s: State, t: nat)
    requires Inv(s) && Enabled(s, Exchange(t)) && !MidOn(s.calls, s.calls[t].c)
    ensures var s', m := Apply(s, Exchange(t)), s.cpu[s.calls[t].c].m;
            && m in s'.home && s'.home[m] == (if s.calls[t].kind.Malloc? then Empty else Full) && s'.slots == s.slots && m in s.slots
            && s'.calls == At(s, t, s'.calls[t].pc)
  {
    hide CpusOk, HandsOk, Filled, DepotFilled, FreeingOk, HeldOk, MidOn, MidOnce, PointersOk;
    var m := s.cpu[s.calls[t].c].m;
    PointsHome(s, s.calls[t].c);
    if s.full != [] { assert s.full[|s.full| - 1] in s.full; }
    if s.empty != [] { assert s.empty[|s.empty| - 1] in s.empty; }
  }

  lemma ExchangeBreaks(s: State, t: nat)
    requires Inv(s) && Unsafe(s, Exchange(t))
    ensures !Inv(Apply(s, Exchange(t)))
  {
    hide DepotOk, HandsOk, Filled, FreeingOk, MidOnce, PointersOk, MidOn, EmptySwapped, FullSwapped;
    var c := s.calls[t].c;
    if MidOn(s.calls, c) {
      ExchangeTwice(s, t);
    } else {
      var s', m := Apply(s, Exchange(t)), s.cpu[c].m;
      ExchangeHome(s, t);
      if HeldOn(s.calls, c) {
        var u :| Holding(s.calls, u) && s.calls[u].c == c;
        assert s.calls[u].pc.m == m;
        assert Holding(s'.calls, u) && s'.calls[u] == s.calls[u];
      }
    }
  }

  // The second half.

  /** A call in the middle of a swap stays so. */
  lemma StayMid(cpu: map<nat, Ptr>, home: map<nat, Home>, calls: map<nat, Call>, t: nat, pc: Pc)
    requires MidOnce(calls) && PointersOk(cpu, home, calls) && Mid(calls, t) && (pc.Taken? || pc.Hand?)
    ensures var calls' := calls[t := calls[t].(pc := pc)]; MidOnce(calls') && PointersOk(cpu, home, calls')
  {
    QuietMids(cpu, home, calls, calls[t := calls[t].(pc := pc)]);
  }

  lemma NewFilled(slots: map<nat, seq<nat>>, spot: map<nat, Spot>, m: nat)
    requires Filled(slots, spot) && (m in slots ==> slots[m] == [])
    ensures Filled(slots[m := []], spot)
  {
    assert m !in slots ==> forall o :: o in spot ==> spot[o] != InMag(m);
  }

  lemma DepotFilledTake(slots: map<nat, seq<nat>>, home: map<nat, Home>, m: nat, t: nat)
    requires DepotFilled(slots, home)
    ensures DepotFilled(slots[m := []], home[m := InHand(t)])
  {
  }

  lemma TakeInv(s: State, t: nat, n: nat)
    requires Inv(s) && Enabled(s, Take(t, n))
    ensures Inv(InHands(s, t, n))
  {
    hide CpusOk, HandsOk, Filled, FreeingOk, MidOnce, PointersOk, HeldOk, Lists, MidOn, HeldOn;
    var e := if s.empty != [] then s.empty[|s.empty| - 1] else n;
    var pc := Hand(s.calls[t].pc.first, e);
    if s.empty != [] {
      ListsLast(s.empty, s.home, Empty, InHand(t));
    } else {
      ListsOther(s.empty, s.home, Empty, e, InHand(t));
    }
    ListsOther(s.full, s.home, Full, e, InHand(t));
    NewFilled(s.slots, s.spot, e);
    DepotFilledTake(s.slots, s.home, e, t);
    hide DepotFilled;
    CpusLeave(s.cpu, s.home, e, InHand(t));
    HandsTake(s.home, s.calls, t, e, s.calls[t].pc.first);
    HeldAside(s.home, s.calls, e, InHand(t));
    HeldMove(s.home[e := InHand(t)], s.calls, t, pc);
    PointersAside(s.cpu, s.home, s.calls, e, InHand(t));
    StayMid(s.cpu, s.home[e := InHand(t)], s.calls, t, pc);
    FreeingMove(s.spot, s.calls, t, At(s, t, pc));
  }

  /** In the middle of a swap no magazine belongs to the CPU. */
  lemma MidAlone(s: State, t: nat)
    requires Inv(s) && Mid(s.calls, t)
    ensures MidOn(s.calls, s.calls[t].c) && NoneOn(s.home, s.calls[t].c) && s.calls[t].c in s.cpu
  {
    hide DepotOk, CpusOk, HandsOk, Filled, DepotFilled, FreeingOk, MidOnce, HeldOk;
  }

  lemma CpusNull(cpu: map<nat, Ptr>, home: map<nat, Home>, c: nat)
    requires CpusOk(cpu, home) && NoneOn(home, c)
    ensures CpusOk(cpu[c := Null], home)
  {
  }

  lemma HandsEnd(home: map<nat, Home>, calls: map<nat, Call>, t: nat)
    requires HandsOk(home, calls) && t in calls && !calls[t].pc.Hand?
    ensures HandsOk(home, calls - {t})
  {
  }

  lemma HeldEnd(home: map<nat, Home>, calls: map<nat, Call>, t: nat)
    requires HeldOk(home, calls)
    ensures HeldOk(home, calls - {t})
  {
    assert forall u :: Holding(calls - {t}, u) ==> Holding(calls, u);
  }

  /** The CPU is left without a magazine. */
  lemma NullPointers(s: State, t: nat, calls': map<nat, Call>)
    requires Inv(s) && Mid(s.calls, t) && (calls' == s.calls - {t} || calls' == At(s, t, Again))
    ensures MidOnce(calls') && PointersOk(s.cpu[s.calls[t].c := Null], s.home, calls')
  {
    MidAlone(s, t);
    hide DepotOk, CpusOk, HandsOk, Filled, DepotFilled, FreeingOk, HeldOk, MidOnce, MidOn;
    LeaveMid(s.cpu[s.calls[t].c := Null], s.home, s.calls, calls', t);
  }

  lemma TakeNoneInv(s: State, t: nat)
    requires Inv(s) && Enabled(s, TakeNone(t))
    ensures Inv(Apply(s, TakeNone(t)))
  {
    hide DepotOk, CpusOk, HandsOk, Filled, DepotFilled, FreeingOk, MidOnce, PointersOk, HeldOk, MidOn;
    var k, s' := s.calls[t], Apply(s, TakeNone(t));
    MidAlone(s, t);
    CpusNull(s.cpu, s.home, k.c);
    NullPointers(s, t, s'.calls);
    if !k.pc.first {
      HandsMove(s.home, s.calls, t, Again);
      HeldMove(s.home, s.calls, t, Again);
      FreeingMove(s.spot, s.calls, t, s'.calls);
    } else {
      HandsEnd(s.home, s.calls, t);
      HeldEnd(s.home, s.calls, t);
      if k.kind.Free? {
        FreeingEnds(s.spot, s.calls, t, Dropped);
        SpotAside(s.slots, s.spot, k.kind.o, Dropped);
      } else {
        FreeingMove(s.spot, s.calls, t, s'.calls);
      }
    }
  }

  lemma HandHome(s: State, t: nat)
    requires Inv(s) && t in s.calls && s.calls[t].pc.Hand?
    ensures s.calls[t].pc.m in s.home && s.home[s.calls[t].pc.m] == InHand(t)
  {
    hide DepotOk, CpusOk, Filled, DepotFilled, FreeingOk, MidOnce, PointersOk, HeldOk;
  }

  lemma FillInv(s: State, t: nat, o: nat)
    requires Inv(s) && Enabled(s, Fill(t, o))
    ensures Inv(Apply(s, Fill(t, o)))
  {
    hide DepotOk, CpusOk, HandsOk, Filled, DepotFilled, FreeingOk, MidOnce, PointersOk, HeldOk;
    var m := s.calls[t].pc.m;
    HandHome(s, t);
    PushFilled(s.slots, s.spot, m, o);
    DepotFilledMove(s.slots, s.home, m, s.slots[m] + [o]);
    FreeingAside(s.spot, s.calls, o, InMag(m));
  }

  /** The magazine goes from the hand to the CPU. */
  lemma HandsStore(home: map<nat, Home>, calls: map<nat, Call>, t: nat, c: nat, pc: Pc)
    requires HandsOk(home, calls) && t in calls && calls[t].pc.Hand? && !pc.Hand?
    ensures HandsOk(home[calls[t].pc.m := OnCpu(c)], calls[t := calls[t].(pc := pc)])
  {
  }

  lemma DepotFilledStore(slots: map<nat, seq<nat>>, home: map<nat, Home>, m: nat, c: nat)
    requires DepotFilled(slots, home) && m in home
    ensures DepotFilled(slots, home[m := OnCpu(c)])
  {
  }

  lemma StorePointers(s: State, t: nat, pc: Pc)
    requires Inv(s) && t in s.calls && s.calls[t].pc.Hand? && (pc == Begin || pc == Again)
    ensures var k := s.calls[t]; var calls' := At(s, t, pc);
            MidOnce(calls') && PointersOk(s.cpu[k.c := To(k.pc.m)], s.home[k.pc.m := OnCpu(k.c)], calls')
  {
    HandHome(s, t);
    MidAlone(s, t);
    hide DepotOk, CpusOk, HandsOk, Filled, DepotFilled, FreeingOk, HeldOk, MidOnce, MidOn;
    var k := s.calls[t];
    LeaveMid(s.cpu[k.c := To(k.pc.m)], s.home[k.pc.m := OnCpu(k.c)], s.calls, At(s, t, pc), t);
  }

  lemma StoreInv(s: State, t: nat)
    requires Inv(s) && Enabled(s, Store(t))
    ensures Inv(Apply(s, Store(t)))
  {
    hide CpusOk, HandsOk, Filled, DepotFilled, FreeingOk, MidOnce, PointersOk, HeldOk, Lists, MidOn;
    var k := s.calls[t];
    var m, pc := k.pc.m, if k.pc.first then Begin else Again;
    HandHome(s, t);
    MidAlone(s, t);
    ListsOther(s.full, s.home, Full, m, OnCpu(k.c));
    ListsOther(s.empty, s.home, Empty, m, OnCpu(k.c));
    CpusArrive(s.cpu, s.home, m, k.c);
    HandsStore(s.home, s.calls, t, k.c, pc);
    DepotFilledStore(s.slots, s.home, m, k.c);
    HeldAside(s.home, s.calls, m, OnCpu(k.c));
    HeldMove(s.home[m := OnCpu(k.c)], s.calls, t, pc);
    StorePointers(s, t, pc);
    FreeingMove(s.spot, s.calls, t, At(s, t, pc));
  }

  // ----- every step and every run -----

  /** A step keeps every magazine and every object in one place exactly when it is not unsafe. */
  lemma StepInv(s: State, st: Step)
    requires Inv(s) && Enabled(s, st)
    ensures Inv(Apply(s, st)) <==> !Unsafe(s, st)
  {
    hide Inv, Loaded, Popped, Pushed, EmptySwapped, FullSwapped, InHands, MidOn, HeldOn;
    match st
    case Start(_, _, _) => StartInv(s, st);
    case Load(t) => if Unsafe(s, st) { LoadBreaks(s, t); } else { LoadSafe(s, t); }
    case Access(t) =>
      if s.calls[t].kind.Malloc? { PopInv(s, t); } else if Unsafe(s, st) { PushBreaks(s, t); } else { PushSafe(s, t); }
    case Exchange(t) => if Unsafe(s, st) { ExchangeBreaks(s, t); } else { ExchangeSafe(s, t); }
    case Take(t, m) => TakeInv(s, t, m);
    case TakeNone(t) => TakeNoneInv(s, t);
    case Fill(t, o) => FillInv(s, t, o);
    case Store(t) => StoreInv(s, t);
  }

  ghost predicate IsRun(s0: State, steps: seq<Step>, run: seq<State>) {
    && |run| == |steps| + 1 && run[0] == s0
    && forall i :: 0 <= i < |steps| ==> Enabled(run[i], steps[i]) && run[i + 1] == Apply(run[i], steps[i])
  }

  ghost predicate SafeUpTo(steps: seq<Step>, run: seq<State>, n: nat) {
    n <= |steps| && n <= |run| && forall i :: 0 <= i < n ==> !Unsafe(run[i], steps[i])
  }

  /** In every interleaving of calls on any CPUs, everything stays in one place exactly as long as no step is unsafe. */
  lemma {:induction false} RunInv(s0: State, steps: seq<Step>, run: seq<State>, n: nat)
    requires Inv(s0) && IsRun(s0, steps, run) && n <= |steps|
    ensures (forall m :: 0 <= m <= n ==> Inv(run[m])) <==> SafeUpTo(steps, run, n)
    decreases n
  {
    hide Inv, Unsafe;
    if n > 0 {
      RunInv(s0, steps, run, n - 1);
      var s, st := run[n - 1], steps[n - 1];
      assert Enabled(s, st) && run[n] == Apply(s, st);
      if Inv(s) { StepInv(s, st); }
      hide Enabled, Apply;
      assert SafeUpTo(steps, run, n) <==> SafeUpTo(steps, run, n - 1) && !Unsafe(s, st);
      hide SafeUpTo;
      assert (forall m :: 0 <= m <= n ==> Inv(run[m])) <==> (forall m :: 0 <= m <= n - 1 ==> Inv(run[m])) && Inv(run[n]);
      assert (forall m :: 0 <= m <= n - 1 ==> Inv(run[m])) ==> Inv(s);
    }
  }

  /** No magazines and no calls yet. */
  ghost predicate Initial(s: State) {
    && (forall c :: c in s.cpu ==> s.cpu[c] == Null) && s.slots == map[] && s.full == [] && s.empty == []
    && s.home == map[] && s.spot == map[] && s.calls == map[]
  }

  lemma InitialInv(s: State)
    requires Initial(s)
    ensures Inv(s)
  {
  }

  // ----- calls that do not overlap on a CPU -----

  /** What a call relies on is as it found it: the magazine it is to swap is empty or full, and there is room in the one
      it has brought. */
  ghost predicate AsFound(s: State, k: Call) {
    match k.pc
    case Swap =>
      && k.c in s.cpu && s.cpu[k.c].To? && s.cpu[k.c].m in s.slots
      && (if k.kind.Malloc? then s.slots[s.cpu[k.c].m] == [] else |s.slots[s.cpu[k.c].m]| == KMEM_MAG_CAPACITY)
    case Hand(first, m) => k.kind.Free? && !first ==> m in s.slots && s.slots[m] == []
    case Again => k.kind.Free? && k.c in s.cpu && s.cpu[k.c].To? ==> s.cpu[k.c].m in s.slots && |s.slots[s.cpu[k.c].m]| < KMEM_MAG_CAPACITY
    case Last(m) => k.kind.Free? ==> m in s.slots && |s.slots[m]| < KMEM_MAG_CAPACITY
    case _ => true
  }

  /** At most one call is under way on a CPU. */
  ghost predicate Alone(calls: map<nat, Call>) {
    forall t, u :: t in calls && u in calls && calls[t].c == calls[u].c ==> t == u
  }

  ghost predicate Serial(s: State) {
    Inv(s) && Alone(s.calls) && forall t :: t in s.calls ==> AsFound(s, s.calls[t])
  }

  ghost predicate FreeCpu(s: State, st: Step) {
    st.Start? ==> forall u :: u in s.calls ==> s.calls[u].c != st.c
  }

  lemma SerialSafe(s: State, st: Step)
    requires Serial(s) && Enabled(s, st)
    ensures !Unsafe(s, st)
  {
    hide Inv;
    if st.Load? || st.Access? || st.Exchange? { assert AsFound(s, s.calls[st.t]); }
  }

  /** A step of one call leaves the magazines of other CPUs and in other hands, and the pointers of other CPUs, alone. */
  lemma Untouched(s: State, st: Step, m: nat)
    requires Inv(s) && Enabled(s, st) && !st.Start? && m in s.slots && m in s.home
    requires (s.home[m].OnCpu? && s.home[m].c != s.calls[st.t].c) || (s.home[m].InHand? && s.home[m].t != st.t)
    ensures m in Apply(s, st).slots && Apply(s, st).slots[m] == s.slots[m]
  {
    hide Inv;
    match st
    case Access(t) => HeldHome(s, t);
    case Take(t, n) => if s.empty != [] { EmptyOnes(s); }
    case Fill(t, o) => HandHome(s, t);
    case _ =>
  }

  lemma OtherPointers(s: State, st: Step, c: nat)
    requires Enabled(s, st) && !st.Start? && c in s.cpu && c != s.calls[st.t].c
    ensures c in Apply(s, st).cpu && Apply(s, st).cpu[c] == s.cpu[c]
  {
  }

  lemma OtherCalls(s: State, st: Step, u: nat)
    requires Enabled(s, st) && u != st.t
    ensures u in Apply(s, st).calls <==> u in s.calls
    ensures u in s.calls ==> Apply(s, st).calls[u] == s.calls[u]
  {
  }

  /** On its own CPU and with the only call there, a pointer outside a swap is right. */
  lemma AloneHome(s: State, u: nat)
    requires Inv(s) && Alone(s.calls) && u in s.calls && !Mid(s.calls, u) && s.calls[u].c in s.cpu && s.cpu[s.calls[u].c].To?
    ensures var m := s.cpu[s.calls[u].c].m; m in s.home && s.home[m] == OnCpu(s.calls[u].c) && m in s.slots
  {
    hide Inv;
    PointsHome(s, s.calls[u].c);
  }

  /** A step of another call does not change what call `u` relies on. */
  lemma OthersAsFound(s: State, st: Step, u: nat)
    requires Serial(s) && Enabled(s, st) && !st.Start? && u in s.calls && u != st.t
    ensures u in Apply(s, st).calls && AsFound(Apply(s, st), s.calls[u]) && Apply(s, st).calls[u] == s.calls[u]
  {
    hide Inv, Apply;
    var k := s.calls[u];
    OtherCalls(s, st, u);
    CallOn(s, u);
    OtherPointers(s, st, k.c);
    assert AsFound(s, k);
    if k.pc.Hand? {
      HandHome(s, u);
      if k.pc.m in s.slots { Untouched(s, st, k.pc.m); }
    } else if k.pc.Last? {
      HeldHome(s, u);
      if k.pc.m in s.slots { Untouched(s, st, k.pc.m); }
    } else if (k.pc.Swap? || k.pc.Again?) && s.cpu[k.c].To? {
      AloneHome(s, u);
      Untouched(s, st, s.cpu[k.c].m);
    }
  }

  /** What the call itself finds. */
  lemma OwnAsFound(s: State, st: Step)
    requires Serial(s) && Enabled(s, st) && !st.Start? && st.t in Apply(s, st).calls
    ensures AsFound(Apply(s, st), Apply(s, st).calls[st.t])
  {
    hide Inv;
    if st.Access? {
      FoundByUse(s, st.t);
    } else if st.Exchange? {
      FoundBySwap(s, st.t);
    } else {
      assert AsFound(s, s.calls[st.t]);
      hide EmptySwapped, FullSwapped, Popped, Pushed;
    }
  }

  lemma FoundByUse(s: State, t: nat)
    requires Serial(s) && Enabled(s, Access(t)) && t in Apply(s, Access(t)).calls
    ensures AsFound(Apply(s, Access(t)), Apply(s, Access(t)).calls[t])
  {
    hide Inv, Loaded, EmptySwapped, FullSwapped, InHands;
    HeldHome(s, t);
    PointsTo(s, s.calls[t].pc.m);
    Capacity(s, s.calls[t].pc.m);
  }

  lemma FoundBySwap(s: State, t: nat)
    requires Serial(s) && Enabled(s, Exchange(t))
    ensures t in Apply(s, Exchange(t)).calls && AsFound(Apply(s, Exchange(t)), Apply(s, Exchange(t)).calls[t])
  {
    hide Inv, Loaded, Popped, Pushed, InHands;
    if s.empty != [] { EmptyOnes(s); }
  }

  lemma PointsTo(s: State, m: nat)
    requires Inv(s) && m in s.home && s.home[m].OnCpu?
    ensures s.home[m].c in s.cpu && s.cpu[s.home[m].c] == To(m)
  {
    hide DepotOk, HandsOk, Filled, DepotFilled, FreeingOk, MidOnce, PointersOk, HeldOk;
  }

  lemma Capacity(s: State, m: nat)
    requires Inv(s) && m in s.slots
    ensures |s.slots[m]| <= KMEM_MAG_CAPACITY
  {
    hide DepotOk, HandsOk, CpusOk, DepotFilled, FreeingOk, MidOnce, PointersOk, HeldOk, HoldsSpots;
  }

  lemma EmptyOnes(s: State)
    requires Inv(s) && s.empty != []
    ensures var e := s.empty[|s.empty| - 1]; e in s.home && s.home[e] == Empty && e in s.slots && s.slots[e] == []
  {
    hide HandsOk, CpusOk, Filled, FreeingOk, MidOnce, PointersOk, HeldOk;
    assert s.empty[|s.empty| - 1] in s.empty;
  }

  lemma SerialStep(s: State, st: Step)
    requires Serial(s) && Enabled(s, st) && FreeCpu(s, st)
    ensures !Unsafe(s, st) && Serial(Apply(s, st))
  {
    hide Inv;
    SerialSafe(s, st);
    StepInv(s, st);
    var s' := Apply(s, st);
    hide Unsafe;
    if st.Start? {
      StartFound(s, st);
    } else {
      forall u | u in s'.calls ensures AsFound(s', s'.calls[u]) && u in s.calls && s'.calls[u].c == s.calls[u].c {
        if u == st.t { SameCpu(s, st); OwnAsFound(s, st); } else { OtherCalls(s, st, u); OthersAsFound(s, st, u); }
      }
      hide AsFound, Apply, Enabled;
    }
  }

  lemma SameCpu(s: State, st: Step)
    requires Enabled(s, st) && !st.Start? && st.t in Apply(s, st).calls
    ensures st.t in s.calls && Apply(s, st).calls[st.t].c == s.calls[st.t].c
  {
  }

  lemma StartFound(s: State, st: Step)
    requires Serial(s) && Enabled(s, st) && FreeCpu(s, st) && st.Start?
    ensures var s' := Apply(s, st); Alone(s'.calls) && forall u :: u in s'.calls ==> AsFound(s', s'.calls[u])
  {
    hide Inv;
    var s' := Apply(s, st);
    forall u | u in s'.calls ensures AsFound(s', s'.calls[u]) { if u != st.t { assert AsFound(s, s.calls[u]); } }
  }

  /** In every run in which no call starts on a CPU that has one under way, whatever happens on the other CPUs, no step is
      unsafe and everything stays in one place. */
  lemma {:induction false} SerialRun(s0: State, steps: seq<Step>, run: seq<State>, n: nat)
    requires Initial(s0) && IsRun(s0, steps, run) && n <= |steps| && forall i :: 0 <= i < n ==> FreeCpu(run[i], steps[i])
    ensures SafeUpTo(steps, run, n) && Serial(run[n]) && Inv(run[n])
    decreases n
  {
    hide Serial, Apply, Enabled, Unsafe, Initial, FreeCpu;
    if n == 0 {
      InitialSerial(s0);
    } else {
      SerialRun(s0, steps, run, n - 1);
      assert Enabled(run[n - 1], steps[n - 1]) && run[n] == Apply(run[n - 1], steps[n - 1]);
      SerialStep(run[n - 1], steps[n - 1]);
    }
    SerialHas(run[n]);
  }

  lemma InitialSerial(s: State)
    requires Initial(s)
    ensures Serial(s)
  {
    InitialInv(s);
    hide Inv;
  }

  lemma SerialHas(s: State)
    requires Serial(s)
    ensures Inv(s)
  {
  }

  // ----- what a call that is not interrupted gets -----

  ghost predicate Leads(s: State, st: Step, s': State) {
    Enabled(s, st) && s' == Apply(s, st)
  }

  /** The steps lead from `s` to `r`. */
  predicate Reaches(s: State, steps: seq<Step>, r: State)
    decreases |steps|
  {
    if steps == [] then r == s else Enabled(s, steps[0]) && Reaches(Apply(s, steps[0]), steps[1..], r)
  }

  /** A call on CPU `c` has begun, and the CPU has magazine `m`. */
  ghost predicate Ready(s: State, t: nat, kind: Kind, m: nat) {
    && Inv(s) && t in s.calls && s.calls[t].kind == kind && s.calls[t].pc == Begin && s.calls[t].c in s.cpu
    && s.cpu[s.calls[t].c] == To(m) && m in s.home && s.home[m] == OnCpu(s.calls[t].c)
  }

  /** The objects of the magazines: those at home on a CPU, and the first full one of the depot. */
  lemma InStock(s: State, m: nat)
    requires Inv(s) && m in s.home
    ensures m in s.slots && |s.slots[m]| <= KMEM_MAG_CAPACITY
    ensures s.full != [] ==> var f := s.full[|s.full| - 1]; f in s.slots && |s.slots[f]| == KMEM_MAG_CAPACITY && f in s.home && s.home[f] == Full
    ensures s.empty != [] ==> var e := s.empty[|s.empty| - 1]; e in s.slots && s.slots[e] == [] && e in s.home && s.home[e] == Empty
  {
    assert s.full != [] ==> s.full[|s.full| - 1] in s.full;
    assert s.empty != [] ==> s.empty[|s.empty| - 1] in s.empty;
  }

  lemma {:induction false} ReachesStep(s: State, step: Step, s': State, steps: seq<Step>, r: State)
    requires Enabled(s, step) && s' == Apply(s, step) && Reaches(s', steps, r)
    ensures Reaches(s, [step] + steps, r)
  {
    assert ([step] + steps)[1..] == steps;
  }

  lemma Overwrite(calls: map<nat, Call>, t: nat, a: Call, b: Call)
    ensures calls[t := a][t := b] == calls[t := b] && calls[t := a] - {t} == calls - {t}
  {
  }

  /** The call reads its CPU's magazine and uses it. */
  lemma UseOnce(s: State, t: nat, m: nat, r: State)
    requires t in s.calls && (s.calls[t].pc == Begin || s.calls[t].pc == Again) && s.calls[t].c in s.cpu && s.cpu[s.calls[t].c] == To(m) && m in s.slots
    requires var s1 := s.(calls := At(s, t, if s.calls[t].pc == Begin then Use(m) else Last(m))); Leads(s1, Access(t), r)
    ensures Reaches(s, [Load(t), Access(t)], r)
  {
    var s1 := s.(calls := At(s, t, if s.calls[t].pc == Begin then Use(m) else Last(m)));
    hide Popped, Pushed, EmptySwapped, FullSwapped, InHands;
    assert Enabled(s, Load(t)) && Apply(s, Load(t)) == s1;
    assert Reaches(r, [], r);
    assert [Access(t)] + [] == [Access(t)];
    ReachesStep(s1, Access(t), r, [], r);
    ReachesStep(s, Load(t), s1, [Access(t)], r);
  }

  lemma {:induction false} ReachesJoin(s: State, p: seq<Step>, m: State, q: seq<Step>, r: State)
    requires Reaches(s, p, m) && Reaches(m, q, r)
    ensures Reaches(s, p + q, r)
    decreases |p|
  {
    hide Enabled, Apply;
    if p == [] {
      assert p + q == q;
    } else {
      ReachesJoin(Apply(s, p[0]), p[1..], m, q, r);
      assert (p + q)[1..] == p[1..] + q;
    }
  }

  /** The last object of magazine `m` has been handed out and the call is over. */
  function HandedOut(s: State, t: nat, m: nat): State
    requires m in s.slots && s.slots[m] != []
  {
    var q := s.slots[m];
    s.(slots := s.slots[m := q[..|q| - 1]], spot := s.spot[q[|q| - 1] := InUse], calls := s.calls - {t})
  }

  /** Object `o` has been put in magazine `m` and the call is over. */
  function PutBack(s: State, t: nat, m: nat, o: nat): State
    requires m in s.slots
  {
    s.(slots := s.slots[m := s.slots[m] + [o]], spot := s.spot[o := InMag(m)], calls := s.calls - {t})
  }

  lemma HandOut(s: State, t: nat, m: nat)
    requires t in s.calls && s.calls[t].kind == Malloc && (s.calls[t].pc == Begin || s.calls[t].pc == Again)
    requires s.calls[t].c in s.cpu && s.cpu[s.calls[t].c] == To(m) && m in s.slots && s.slots[m] != []
    ensures Reaches(s, [Load(t), Access(t)], HandedOut(s, t, m))
  {
    var k := s.calls[t].(pc := if s.calls[t].pc == Begin then Use(m) else Last(m));
    Overwrite(s.calls, t, k, k);
    UseOnce(s, t, m, HandedOut(s, t, m));
  }

  lemma PutIn(s: State, t: nat, m: nat, o: nat)
    requires t in s.calls && s.calls[t].kind == Free(o) && (s.calls[t].pc == Begin || s.calls[t].pc == Again)
    requires s.calls[t].c in s.cpu && s.cpu[s.calls[t].c] == To(m) && m in s.slots && |s.slots[m]| < KMEM_MAG_CAPACITY
    ensures Reaches(s, [Load(t), Access(t)], PutBack(s, t, m, o))
  {
    var k := s.calls[t].(pc := if s.calls[t].pc == Begin then Use(m) else Last(m));
    Overwrite(s.calls, t, k, k);
    UseOnce(s, t, m, PutBack(s, t, m, o));
  }

  /** The call finds its CPU's magazine empty or full and goes on to swap it. */
  lemma FindsUnfit(s: State, t: nat, m: nat)
    requires t in s.calls && s.calls[t].pc == Begin && s.calls[t].c in s.cpu && s.cpu[s.calls[t].c] == To(m) && m in s.slots
    requires if s.calls[t].kind.Malloc? then s.slots[m] == [] else |s.slots[m]| >= KMEM_MAG_CAPACITY
    ensures Reaches(s, [Load(t), Access(t)], s.(calls := At(s, t, Swap)))
  {
    Overwrite(s.calls, t, s.calls[t].(pc := Use(m)), s.calls[t].(pc := Swap));
    UseOnce(s, t, m, s.(calls := At(s, t, Swap)));
  }

  /** The depot and the CPU once the CPU's magazine `m` has been exchanged for `n`. */
  function Exchanged(s: State, c: nat, m: nat, n: nat, malloc: bool): State
    requires if malloc then s.full != [] else s.empty != []
  {
    if malloc then
      s.(cpu := s.cpu[c := To(n)], full := s.full[..|s.full| - 1], empty := s.empty + [m], home := s.home[m := Empty][n := OnCpu(c)])
    else
      s.(cpu := s.cpu[c := To(n)], empty := s.empty[..|s.empty| - 1], full := s.full + [m], home := s.home[m := Full][n := OnCpu(c)])
  }

  lemma SwapsEmpty(s: State, t: nat, m: nat)
    requires t in s.calls && s.calls[t].kind == Malloc && s.calls[t].pc == Swap && s.calls[t].c in s.cpu && s.cpu[s.calls[t].c] == To(m)
    requires s.full != []
    ensures Reaches(s, [Exchange(t)], Exchanged(s, s.calls[t].c, m, s.full[|s.full| - 1], true).(calls := At(s, t, Again)))
  {
    var r := Exchanged(s, s.calls[t].c, m, s.full[|s.full| - 1], true).(calls := At(s, t, Again));
    hide Loaded, Popped, Pushed, FullSwapped, InHands;
    assert Reaches(r, [], r) && [Exchange(t)] + [] == [Exchange(t)];
    ReachesStep(s, Exchange(t), r, [], r);
  }

  lemma SwapsFull(s: State, t: nat, m: nat)
    requires t in s.calls && s.calls[t].kind.Free? && s.calls[t].pc == Swap && s.calls[t].c in s.cpu && s.cpu[s.calls[t].c] == To(m)
    requires s.empty != []
    ensures Reaches(s, [Exchange(t), Store(t)], Exchanged(s, s.calls[t].c, m, s.empty[|s.empty| - 1], false).(calls := At(s, t, Again)))
  {
    var c, e := s.calls[t].c, s.empty[|s.empty| - 1];
    var s1 := s.(full := s.full + [m], empty := s.empty[..|s.empty| - 1], home := s.home[m := Full][e := InHand(t)], calls := At(s, t, Hand(false, e)));
    var r := Exchanged(s, c, m, e, false).(calls := At(s, t, Again));
    hide Loaded, Popped, Pushed, EmptySwapped, InHands;
    assert Enabled(s, Exchange(t)) && Apply(s, Exchange(t)) == s1;
    Overwrite(s.calls, t, s.calls[t].(pc := Hand(false, e)), s.calls[t].(pc := Again));
    assert s1.home[e := OnCpu(c)] == r.home;
    assert Enabled(s1, Store(t)) && Apply(s1, Store(t)) == r;
    assert Reaches(r, [], r) && [Store(t)] + [] == [Store(t)];
    ReachesStep(s1, Store(t), r, [], r);
    ReachesStep(s, Exchange(t), s1, [Store(t)], r);
  }

  /** `kmalloc` that runs through hands out the last object of its CPU's magazine or, if that is empty and the depot has
      a full one, the last object of that one, which is then the CPU's. */
  lemma MallocServed(s: State, t: nat, m: nat) returns (steps: seq<Step>, r: State)
    requires Ready(s, t, Malloc, m)
    ensures m in s.slots && (s.slots[m] != [] || s.full != [] ==> Reaches(s, steps, r))
    ensures s.slots[m] != [] ==> r == HandedOut(s, t, m)
    ensures s.slots[m] == [] && s.full != [] ==>
              var f := s.full[|s.full| - 1];
              f in s.slots && s.slots[f] != [] && r == HandedOut(Exchanged(s, s.calls[t].c, m, f, true), t, f)
  {
    InStock(s, m);
    hide Inv, Reaches, Enabled, Apply;
    if s.slots[m] != [] {
      HandOut(s, t, m);
      return [Load(t), Access(t)], HandedOut(s, t, m);
    }
    if s.full == [] {
      return [], s;
    }
    var c, f := s.calls[t].c, s.full[|s.full| - 1];
    var s1 := s.(calls := At(s, t, Swap));
    var s2 := Exchanged(s, c, m, f, true).(calls := At(s, t, Again));
    FindsUnfit(s, t, m);
    Overwrite(s.calls, t, s.calls[t].(pc := Swap), s.calls[t].(pc := Again));
    SwapsEmpty(s1, t, m);
    assert Exchanged(s1, c, m, f, true).(calls := At(s1, t, Again)) == s2;
    Overwrite(s.calls, t, s.calls[t].(pc := Again), s.calls[t]);
    HandOut(s2, t, f);
    r := HandedOut(Exchanged(s, c, m, f, true), t, f);
    assert HandedOut(s2, t, f) == r;
    ReachesJoin(s, [Load(t), Access(t)], s1, [Exchange(t)], s2);
    ReachesJoin(s, [Load(t), Access(t)] + [Exchange(t)], s2, [Load(t), Access(t)], r);
    steps := [Load(t), Access(t)] + [Exchange(t)] + [Load(t), Access(t)];
  }

  /** `kfree` that runs through puts the object in its CPU's magazine or, if that is full and the depot has an empty one,
      in that one, which is then the CPU's. */
  lemma FreeServed(s: State, t: nat, m: nat, o: nat) returns (steps: seq<Step>, r: State)
    requires Ready(s, t, Free(o), m)
    ensures m in s.slots && (|s.slots[m]| < KMEM_MAG_CAPACITY || s.empty != [] ==> Reaches(s, steps, r))
    ensures |s.slots[m]| < KMEM_MAG_CAPACITY ==> r == PutBack(s, t, m, o)
    ensures |s.slots[m]| == KMEM_MAG_CAPACITY && s.empty != [] ==>
              var e := s.empty[|s.empty| - 1];
              e in s.slots && s.slots[e] == [] && r == PutBack(Exchanged(s, s.calls[t].c, m, e, false), t, e, o)
  {
    InStock(s, m);
    hide Inv, Reaches, Enabled, Apply;
    if |s.slots[m]| < KMEM_MAG_CAPACITY {
      PutIn(s, t, m, o);
      return [Load(t), Access(t)], PutBack(s, t, m, o);
    }
    if s.empty == [] {
      return [], s;
    }
    var c, e := s.calls[t].c, s.empty[|s.empty| - 1];
    var s1 := s.(calls := At(s, t, Swap));
    var s2 := Exchanged(s, c, m, e, false).(calls := At(s, t, Again));
    FindsUnfit(s, t, m);
    Overwrite(s.calls, t, s.calls[t].(pc := Swap), s.calls[t].(pc := Again));
    SwapsFull(s1, t, m);
    assert Exchanged(s1, c, m, e, false).(calls := At(s1, t, Again)) == s2;
    Overwrite(s.calls, t, s.calls[t].(pc := Again), s.calls[t]);
    PutIn(s2, t, e, o);
    r := PutBack(Exchanged(s, c, m, e, false), t, e, o);
    assert PutBack(s2, t, e, o) == r;
    ReachesJoin(s, [Load(t), Access(t)], s1, [Exchange(t), Store(t)], s2);
    ReachesJoin(s, [Load(t), Access(t)] + [Exchange(t), Store(t)], s2, [Load(t), Access(t)], r);
    steps := [Load(t), Access(t)] + [Exchange(t), Store(t)] + [Load(t), Access(t)];
  }

  // ----- a run in which an object is lost -----

  /** One CPU. Thread 1 allocates object 100, which leaves its magazine empty, and asks for another; when it has given the
      magazine to the depot and not yet taken one back, thread 2 of the same CPU frees object 100. */
  function LossStep(i: nat): Step {
    match i
    case 0 => Start(1, 0, Malloc)
    case 1 => Load(1)
    case 2 => Take(1, 9)
    case 3 => Store(1)
    case 4 => Load(1)
    case 5 => Access(1)
    case 6 => Exchange(1)
    case 7 => Take(1, 9)
    case 8 => Fill(1, 100)
    case 9 => Store(1)
    case 10 => Load(1)
    case 11 => Access(1)
    case 12 => Start(1, 0, Malloc)
    case 13 => Load(1)
    case 14 => Access(1)
    case 15 => Exchange(1)
    case 16 => Start(2, 0, Free(100))
    case 17 => Load(2)
    case 18 => Access(2)
    case _ => Take(1, 9)
  }

  /** CPU 0 and the one magazine there is. */
  function OneMag(q: seq<nat>, empty: seq<nat>, h: Home, spot: map<nat, Spot>, calls: map<nat, Call>): State {
    State(map[0 := To(9)], map[9 := q], [], empty, map[9 := h], spot, calls)
  }

  function LossState(i: nat): State {
    var one := (pc: Pc) => map[1 := Call(0, Malloc, pc)];
    var none := State(map[0 := Null], map[], [], [], map[], map[], map[]);
    match i
    case 0 => none
    case 1 => none.(calls := one(Begin))
    case 2 => none.(calls := one(Taken(true)))
    case 3 => OneMag([], [], InHand(1), map[], one(Hand(true, 9))).(cpu := map[0 := Null])
    case 4 => OneMag([], [], OnCpu(0), map[], one(Begin))
    case 5 => OneMag([], [], OnCpu(0), map[], one(Use(9)))
    case 6 => OneMag([], [], OnCpu(0), map[], one(Swap))
    case 7 => OneMag([], [9], Empty, map[], one(Taken(false)))
    case 8 => OneMag([], [], InHand(1), map[], one(Hand(false, 9)))
    case 9 => OneMag([100], [], InHand(1), map[100 := InMag(9)], one(Hand(false, 9)))
    case 10 => OneMag([100], [], OnCpu(0), map[100 := InMag(9)], one(Again))
    case 11 => OneMag([100], [], OnCpu(0), map[100 := InMag(9)], one(Last(9)))
    case 12 => OneMag([], [], OnCpu(0), map[100 := InUse], map[])
    case 13 => OneMag([], [], OnCpu(0), map[100 := InUse], one(Begin))
    case 14 => OneMag([], [], OnCpu(0), map[100 := InUse], one(Use(9)))
    case 15 => OneMag([], [], OnCpu(0), map[100 := InUse], one(Swap))
    case 16 => OneMag([], [9], Empty, map[100 := InUse], one(Taken(false)))
    case 17 => OneMag([], [9], Empty, map[100 := Freeing(2)], one(Taken(false))[2 := Call(0, Free(100), Begin)])
    case 18 => OneMag([], [9], Empty, map[100 := Freeing(2)], one(Taken(false))[2 := Call(0, Free(100), Use(9))])
    case 19 => OneMag([100], [9], Empty, map[100 := InMag(9)], one(Taken(false)))
    case _ => OneMag([], [], InHand(1), map[100 := InMag(9)], one(Hand(false, 9)))
  }

  lemma ByParts(s: State, st: Step, s': State)
    requires Enabled(s, st)
    requires var r := Apply(s, st);
             && r.cpu == s'.cpu && r.slots == s'.slots && r.full == s'.full && r.empty == s'.empty
             && r.home == s'.home && r.spot == s'.spot && r.calls == s'.calls
    ensures Leads(s, st, s')
  {
  }

  lemma LossFirst(i: nat)
    requires i < 4
    ensures Leads(LossState(i), LossStep(i), LossState(i + 1))
  {
    hide Popped, Pushed, EmptySwapped, FullSwapped;
    ByParts(LossState(i), LossStep(i), LossState(i + 1));
  }

  lemma LossFinds(i: nat)
    requires 4 <= i < 6
    ensures Leads(LossState(i), LossStep(i), LossState(i + 1))
  {
    hide Pushed, EmptySwapped, FullSwapped, InHands;
    ByParts(LossState(i), LossStep(i), LossState(i + 1));
  }

  lemma LossRefill(i: nat)
    requires 6 <= i < 8
    ensures Leads(LossState(i), LossStep(i), LossState(i + 1))
  {
    hide Loaded, Popped, Pushed, FullSwapped;
    ByParts(LossState(i), LossStep(i), LossState(i + 1));
  }

  lemma LossFilled(i: nat)
    requires 8 <= i < 10
    ensures Leads(LossState(i), LossStep(i), LossState(i + 1))
  {
    hide Loaded, Popped, Pushed, EmptySwapped, FullSwapped, InHands;
    assert OneMag([], [], Empty, map[], map[]).slots[9] + [100] == [100];
    ByParts(LossState(i), LossStep(i), LossState(i + 1));
  }

  lemma LossAllocated(i: nat)
    requires 10 <= i < 12
    ensures Leads(LossState(i), LossStep(i), LossState(i + 1))
  {
    hide Pushed, EmptySwapped, FullSwapped, InHands;
    assert LossState(11).slots[9][..0] == [];
    ByParts(LossState(i), LossStep(i), LossState(i + 1));
  }

  lemma LossFindsAgain(i: nat)
    requires 12 <= i < 15
    ensures Leads(LossState(i), LossStep(i), LossState(i + 1))
  {
    hide Pushed, EmptySwapped, FullSwapped, InHands;
    ByParts(LossState(i), LossStep(i), LossState(i + 1));
  }

  lemma LossSwap(i: nat)
    requires 15 <= i < 17
    ensures Leads(LossState(i), LossStep(i), LossState(i + 1))
  {
    hide Loaded, Popped, Pushed, FullSwapped, InHands;
    ByParts(LossState(i), LossStep(i), LossState(i + 1));
  }

  lemma LossStale(i: nat)
    requires 17 <= i < 19
    ensures Leads(LossState(i), LossStep(i), LossState(i + 1))
  {
    hide Popped, EmptySwapped, FullSwapped, InHands;
    assert LossState(18).slots[9] + [100] == [100];
    ByParts(LossState(i), LossStep(i), LossState(i + 1));
  }

  lemma LossTake()
    ensures Leads(LossState(19), LossStep(19), LossState(20))
  {
    hide Loaded, Popped, Pushed, EmptySwapped, FullSwapped;
    var s := LossState(19);
    assert s.empty[..0] == [] && s.calls[1] == Call(0, Malloc, Taken(false));
    ByParts(s, LossStep(19), LossState(20));
  }

  lemma LossLeads(i: nat)
    requires i < 20
    ensures Leads(LossState(i), LossStep(i), LossState(i + 1))
  {
    hide Enabled, Apply, LossState, LossStep;
    if i < 4 { LossFirst(i); } else if i < 6 { LossFinds(i); } else if i < 8 { LossRefill(i); } else if i < 10 { LossFilled(i); }
    else if i < 12 { LossAllocated(i); } else if i < 15 { LossFindsAgain(i); } else if i < 17 { LossSwap(i); }
    else if i < 19 { LossStale(i); } else { LossTake(); }
  }

  /** Object 100 is then in no magazine and not in use. */
  lemma ObjectLost() returns (steps: seq<Step>, run: seq<State>)
    ensures |steps| == 20 && |run| == 21 && Initial(run[0]) && IsRun(run[0], steps, run) && SafeUpTo(steps, run, 17)
    ensures Mid(run[17].calls, 1) && steps[17] == Load(2) && Unsafe(run[17], steps[17])
    ensures 100 in run[12].spot && run[12].spot[100] == InUse && 100 in run[20].spot && run[20].spot[100] != InUse
    ensures forall m :: m in run[20].slots ==> 100 !in run[20].slots[m]
  {
    hide Apply;
    steps := seq(20, i requires 0 <= i < 20 => LossStep(i));
    run := seq(21, i requires 0 <= i < 21 => LossState(i));
    forall i | 0 <= i < 20 ensures Enabled(run[i], steps[i]) && run[i + 1] == Apply(run[i], steps[i]) { LossLeads(i); }
    forall i | 0 <= i < 17 ensures !Unsafe(run[i], steps[i]) { LossSafe(i); }
    assert Mid(run[17].calls, 1);
    assert MidOn(run[17].calls, 0);
  }

  /** Up to then thread 1 is the only one. */
  lemma LossSafe(i: nat)
    requires i < 17
    ensures !Unsafe(LossState(i), LossStep(i))
  {
    var s := LossState(i);
    assert forall u :: u in s.calls ==> u == 1;
  }
}
