/** Copy-on-write in kernel/arch/x86_64/mmu.c as a protocol: every address space of the system, the
    frames behind them, and the faults that have dropped the map lock to copy a page.

    A step is one critical section under a map lock, or the unlocked copy between the two halves
    of a write fault.  Parameters of a step stand for what the code does not decide: the frame the
    allocator returns, the thread that faults, the order in which entries are visited. */
module Cow {

  /** The contents of one frame. */
  type Contents = seq<nat>

  /** One present 4 KiB entry. */
  datatype Pte = Pte(frame: nat, writable: bool, cow: bool, shared: bool)

  /** An entry is addressed by its map and its page address. */
  datatype Slot = Slot(space: nat, page: nat)

  /** A write fault between its two critical sections. */
  datatype Pending = Pending(slot: Slot, source: nat, target: nat, copied: bool)

  /** A fault on an absent page that has its frame but has not taken the map lock yet. */
  datatype Fault = Fault(slot: Slot, frame: nat, writable: bool, shared: bool)

  /** `refs` holds the reference count of every frame in use, `mem` the contents of every frame,
      `pending` and `faults` the half-done faults by thread, `registered` the frames in the table of
      shared file pages. */
  datatype State = State(ptes: map<Slot, Pte>, refs: map<nat, nat>, mem: map<nat, Contents>,
                         pending: map<nat, Pending>, faults: map<nat, Fault>, registered: set<nat>)

  const Initial := State(map[], map[], map[], map[], map[], {})

  datatype Step = FaultNew(thread: nat, slot: Slot, frame: nat, writable: bool, shared: bool, register: bool, data: Contents)
    | FaultCached(thread: nat, slot: Slot, frame: nat, writable: bool)
    | FaultFinish(thread: nat, table: bool)
    | ForkPte(from: Slot, child: nat)
    | ForkPteFailed(from: Slot)
    | CowSole(slot: Slot)
    | CowStart(thread: nat, slot: Slot, frame: nat, data: Contents)
    | CowCopy(thread: nat)
    | CowFinish(thread: nat, sameSlot: bool)
    | Protect(slot: Slot, writable: bool)
    | Unmap(slot: Slot)
    | Write(slot: Slot, data: Contents)
    | Reuse(frame: nat, data: Contents)
    | Forget(frame: nat)

  // ----- steps -----

  /** Entries of a fork: a writable private entry becomes read-only and copy-on-write on both sides. */
  function Downgraded(p: Pte): Pte {
    if p.writable && !p.shared then p.(writable := false, cow := true) else p
  }

  /** One mapping of `frame` less; the frame is released when it was the last. */
  function Dropped(refs: map<nat, nat>, frame: nat): map<nat, nat>
    requires frame in refs
  {
    var n := if refs[frame] > 0 then refs[frame] - 1 else 0;
    if n == 0 then refs - {frame} else refs[frame := n]
  }

  /** The recheck after the copy: same entry, still copy-on-write, still the same frame. */
  predicate StillFaulting(s: State, f: Pending, sameSlot: bool) {
    sameSlot && f.slot in s.ptes && s.ptes[f.slot].cow && s.ptes[f.slot].frame == f.source
  }

  predicate Idle(s: State, t: nat) {
    t !in s.pending && t !in s.faults
  }

  predicate Enabled(s: State, st: Step) {
    match st
    case FaultNew(t, _, frame, _, shared, register, _) => Idle(s, t) && frame !in s.refs && (register ==> shared)
    case FaultCached(t, _, frame, _) => Idle(s, t) && frame in s.registered && frame in s.refs
    case FaultFinish(t, _) => t in s.faults
    case ForkPte(from, child) => from in s.ptes && Slot(child, from.page) !in s.ptes
    case ForkPteFailed(from) => from in s.ptes
    case CowSole(slot) => slot in s.ptes && s.ptes[slot].cow && s.ptes[slot].frame in s.refs && s.refs[s.ptes[slot].frame] <= 1
    case CowStart(t, slot, frame, _) =>
      && Idle(s, t) && slot in s.ptes && s.ptes[slot].cow && frame !in s.refs
      && s.ptes[slot].frame in s.refs && s.refs[s.ptes[slot].frame] > 1
    case CowCopy(t) => t in s.pending && !s.pending[t].copied && s.pending[t].source in s.mem
    case CowFinish(t, _) => t in s.pending && s.pending[t].copied && s.pending[t].source in s.mem
    case Protect(slot, _) => slot in s.ptes
    case Unmap(slot) => slot in s.ptes && s.ptes[slot].frame in s.refs
    case Write(slot, _) => slot in s.ptes && s.ptes[slot].writable
    case Reuse(frame, _) => frame !in s.refs
    case Forget(frame) => frame in s.registered && frame !in s.refs
  }

  function Apply(s: State, st: Step): State
    requires Enabled(s, st)
  {
    match st
    case FaultNew(t, slot, frame, w, sh, register, data) =>
      s.(refs := s.refs[frame := if register then 1 else 0], mem := s.mem[frame := data],
         faults := s.faults[t := Fault(slot, frame, w, sh)], registered := s.registered + if register then {frame} else {})
    case FaultCached(t, slot, frame, w) => s.(faults := s.faults[t := Fault(slot, frame, w, true)])
    case FaultFinish(t, table) => Faulted(s, t, table)
    case ForkPte(from, child) =>
      var p := Downgraded(s.ptes[from]);
      s.(ptes := s.ptes[from := p][Slot(child, from.page) := p],
         refs := s.refs[p.frame := (if p.frame in s.refs then s.refs[p.frame] else 0) + 1])
    case ForkPteFailed(from) => s.(ptes := s.ptes[from := Downgraded(s.ptes[from])])
    case CowSole(slot) => s.(ptes := s.ptes[slot := s.ptes[slot].(writable := true, cow := false)])
    case CowStart(t, slot, frame, data) =>
      s.(refs := s.refs[frame := 0], mem := s.mem[frame := data],
         pending := s.pending[t := Pending(slot, s.ptes[slot].frame, frame, false)])
    case CowCopy(t) =>
      var f := s.pending[t];
      s.(mem := s.mem[f.target := s.mem[f.source]], pending := s.pending[t := f.(copied := true)])
    case CowFinish(t, sameSlot) => Finished(s, t, sameSlot)
    case Protect(slot, w) => s.(ptes := s.ptes[slot := s.ptes[slot].(writable := w)])
    case Unmap(slot) =>
      s.(ptes := s.ptes - {slot}, refs := Dropped(s.refs, s.ptes[slot].frame))
    case Write(slot, data) => s.(mem := s.mem[s.ptes[slot].frame := data])
    case Reuse(frame, data) => s.(mem := s.mem[frame := data])
    case Forget(frame) => s.(registered := s.registered - {frame})
  }

  /** The second half of a fault on an absent page frees its frame if another thread has mapped the page
      meanwhile, or if there is no table to map it in and none can be had. */
  predicate GivesUp(s: State, t: nat, table: bool)
    requires t in s.faults
  {
    s.faults[t].slot in s.ptes || !table
  }

  /** The second half of a fault on an absent page; `table` says whether `vmm_get_pte` has an entry for it. */
  function Faulted(s: State, t: nat, table: bool): State
    requires t in s.faults
  {
    var f := s.faults[t];
    var s1 := s.(faults := s.faults - {t});
    if !GivesUp(s, t, table) then
      s1.(ptes := s.ptes[f.slot := Pte(f.frame, f.writable, false, f.shared)],
          refs := s.refs[f.frame := (if f.frame in s.refs then s.refs[f.frame] else 0) + 1])
    else s1.(refs := s.refs - {f.frame})
  }

  function Finished(s: State, t: nat, sameSlot: bool): State
    requires t in s.pending
  {
    var f := s.pending[t];
    var s1 := s.(pending := s.pending - {t});
    if StillFaulting(s, f, sameSlot) then
      if f.source in s.refs && s.refs[f.source] > 1 then
        s1.(ptes := s.ptes[f.slot := s.ptes[f.slot].(frame := f.target, writable := true, cow := false)],
            refs := s.refs[f.source := s.refs[f.source] - 1][f.target := (if f.target in s.refs then s.refs[f.target] else 0) + 1])
      else
        s1.(ptes := s.ptes[f.slot := s.ptes[f.slot].(writable := true, cow := false)], refs := s.refs - {f.target})
    else s1.(refs := s.refs - {f.target})
  }

  // ----- the invariant -----

  /** The entries that map a frame. */
  ghost function Mappers(ptes: map<Slot, Pte>, frame: nat): set<Slot> {
    set k | k in ptes && ptes[k].frame == frame
  }

  /** The references to a frame: its entries, and its place in the table of shared pages. */
  ghost function Holders(s: State, p: nat): nat {
    |Mappers(s.ptes, p)| + if p in s.registered then 1 else 0
  }

  ghost predicate Counted(s: State) {
    forall p :: p in s.refs ==> s.refs[p] == Holders(s, p)
  }

  ghost predicate EntryOk(s: State, k: Slot)
    requires k in s.ptes
  {
    var e := s.ptes[k];
    && e.frame in s.refs
    && (e.cow ==> !e.writable && !e.shared)
    && (e.writable && !e.shared ==> Mappers(s.ptes, e.frame) == {k})
  }

  ghost predicate Uniform(s: State) {
    forall k, j :: k in s.ptes && j in s.ptes && s.ptes[k].frame == s.ptes[j].frame ==> s.ptes[k].shared == s.ptes[j].shared
  }

  /** A frame in use that nobody refers to yet. */
  ghost predicate Aside(s: State, p: nat) {
    p in s.refs && p !in s.registered && Mappers(s.ptes, p) == {}
  }

  ghost predicate PendingOk(s: State) {
    && (forall t :: t in s.pending ==> Aside(s, s.pending[t].target) && s.pending[t].target != s.pending[t].source)
    && (forall t, u :: t in s.pending && u in s.pending && t != u ==> s.pending[t].target != s.pending[u].target)
    && (forall t :: t in s.pending ==> s.pending[t].source in s.mem)
  }

  /** A fault on an absent page holds a registered frame, or one of its own. */
  ghost predicate FaultsOk(s: State) {
    && (forall t :: t in s.faults ==> var f := s.faults[t];
          if f.frame in s.registered then f.shared else Aside(s, f.frame))
    && (forall t, u :: t in s.faults && u in s.faults && t != u && s.faults[t].frame !in s.registered ==>
          s.faults[t].frame != s.faults[u].frame)
    && (forall t, u :: t in s.faults && u in s.pending ==> s.faults[t].frame != s.pending[u].target)
  }

  ghost predicate RegisteredOk(s: State) {
    && s.registered <= s.refs.Keys
    && (forall k :: k in s.ptes && s.ptes[k].frame in s.registered ==> s.ptes[k].shared)
  }

  /** Every reference count is the number of entries that map the frame, and one more for a registered
      frame; a writable private entry is the only entry of its frame. */
  ghost predicate FramesOk(s: State) {
    && Counted(s) && Uniform(s) && RegisteredOk(s)
    && (forall k :: k in s.ptes ==> EntryOk(s, k))
    && s.refs.Keys <= s.mem.Keys
  }

  ghost predicate Inv(s: State) {
    FramesOk(s) && PendingOk(s) && FaultsOk(s)
  }

  // ----- counting -----

  /** A new entry adds itself to the mappers of its frame and changes no other frame's. */
  lemma MapNew(ptes: map<Slot, Pte>, k: Slot, e: Pte, p: nat)
    requires k !in ptes
    ensures Mappers(ptes[k := e], p) == if e.frame == p then Mappers(ptes, p) + {k} else Mappers(ptes, p)
    ensures |Mappers(ptes[k := e], p)| == |Mappers(ptes, p)| + (if e.frame == p then 1 else 0)
  {
    assert Mappers(ptes[k := e], p) == if e.frame == p then Mappers(ptes, p) + {k} else Mappers(ptes, p);
    assert k !in Mappers(ptes, p);
  }

  /** Changing the flags of an entry changes no mappers. */
  lemma MapFlags(ptes: map<Slot, Pte>, k: Slot, e: Pte, p: nat)
    requires k in ptes && ptes[k].frame == e.frame
    ensures Mappers(ptes[k := e], p) == Mappers(ptes, p)
  {
    assert forall j :: j in Mappers(ptes[k := e], p) <==> j in Mappers(ptes, p);
  }

  lemma MapRemove(ptes: map<Slot, Pte>, k: Slot, p: nat)
    requires k in ptes
    ensures Mappers(ptes - {k}, p) == if ptes[k].frame == p then Mappers(ptes, p) - {k} else Mappers(ptes, p)
    ensures |Mappers(ptes - {k}, p)| == |Mappers(ptes, p)| - (if ptes[k].frame == p then 1 else 0)
  {
    assert Mappers(ptes - {k}, p) == if ptes[k].frame == p then Mappers(ptes, p) - {k} else Mappers(ptes, p);
    assert ptes[k].frame == p <==> k in Mappers(ptes, p);
  }

  // ----- every step keeps the invariant -----

  /** The half-done faults and the contents do not matter to the counts. */
  lemma SameFrames(s: State, s': State)
    requires FramesOk(s) && s'.ptes == s.ptes && s'.refs == s.refs && s'.registered == s.registered && s.mem.Keys <= s'.mem.Keys
    ensures FramesOk(s') && forall p :: Aside(s, p) ==> Aside(s', p)
  {
    forall k | k in s.ptes ensures EntryOk(s', k) { assert EntryOk(s, k); }
    hide Mappers, EntryOk;
  }

  /** The half-done faults stay in order as long as the frames set aside for them do. */
  lemma SameFaults(s: State, s': State)
    requires PendingOk(s) && FaultsOk(s) && s'.pending == s.pending && s'.faults == s.faults && s.mem.Keys <= s'.mem.Keys
    requires forall t :: t in s.pending ==> Aside(s', s.pending[t].target)
    requires forall t :: t in s.faults ==> (s.faults[t].frame in s'.registered <==> s.faults[t].frame in s.registered)
    requires forall t :: t in s.faults && s.faults[t].frame !in s.registered ==> Aside(s', s.faults[t].frame)
    ensures PendingOk(s') && FaultsOk(s')
  {
    hide Aside;
  }

  /** An entry that agrees with the others of its frame. */
  ghost predicate Addable(s: State, k: Slot, e: Pte) {
    && k !in s.ptes && e.frame in s.mem
    && (e.cow ==> !e.writable && !e.shared) && (e.writable && !e.shared ==> Mappers(s.ptes, e.frame) == {})
    && (forall j :: j in s.ptes && s.ptes[j].frame == e.frame ==> s.ptes[j].shared == e.shared && (s.ptes[j].writable ==> e.shared))
    && (forall t :: t in s.pending ==> s.pending[t].target != e.frame)
    && (forall t :: t in s.faults && s.faults[t].frame !in s.registered ==> s.faults[t].frame != e.frame)
    && (e.frame in s.registered ==> e.shared)
  }

  ghost function WithEntry(s: State, k: Slot, e: Pte): State {
    s.(ptes := s.ptes[k := e], refs := s.refs[e.frame := Holders(s, e.frame) + 1])
  }

  lemma AddEntryOk(s: State, k: Slot, e: Pte, j: Slot)
    requires Inv(s) && Addable(s, k, e) && j in s.ptes[k := e]
    ensures EntryOk(WithEntry(s, k, e), j)
  {
    hide Counted, Uniform, PendingOk, FaultsOk, RegisteredOk;
    MapNew(s.ptes, k, e, (s.ptes[k := e])[j].frame);
    if j != k { assert EntryOk(s, j); }
    hide Mappers;
  }

  lemma AddCounted(s: State, k: Slot, e: Pte)
    requires Inv(s) && Addable(s, k, e)
    ensures Counted(WithEntry(s, k, e))
  {
    hide EntryOk, Uniform, PendingOk, FaultsOk, RegisteredOk;
    var s' := WithEntry(s, k, e);
    forall p | p in s'.refs ensures s'.refs[p] == Holders(s', p) {
      MapNew(s.ptes, k, e, p);
      hide Mappers;
    }
  }

  lemma AddAside(s: State, k: Slot, e: Pte, p: nat)
    requires Aside(s, p) && p != e.frame && k !in s.ptes
    ensures Aside(WithEntry(s, k, e), p)
  {
    MapNew(s.ptes, k, e, p);
  }

  lemma AddPendingOk(s: State, k: Slot, e: Pte)
    requires Inv(s) && Addable(s, k, e)
    ensures PendingOk(WithEntry(s, k, e)) && FaultsOk(WithEntry(s, k, e))
  {
    hide Mappers, EntryOk, Uniform, Counted, RegisteredOk;
    forall t | t in s.pending ensures Aside(WithEntry(s, k, e), s.pending[t].target) { AddAside(s, k, e, s.pending[t].target); }
    forall t | t in s.faults && s.faults[t].frame !in s.registered ensures Aside(WithEntry(s, k, e), s.faults[t].frame) {
      AddAside(s, k, e, s.faults[t].frame);
    }
    hide Aside;
    SameFaults(s, WithEntry(s, k, e));
  }

  lemma AddEntryInv(s: State, k: Slot, e: Pte)
    requires Inv(s) && Addable(s, k, e)
    ensures Inv(WithEntry(s, k, e))
  {
    var s' := WithEntry(s, k, e);
    AddCounted(s, k, e);
    AddPendingOk(s, k, e);
    forall j | j in s'.ptes ensures EntryOk(s', j) { AddEntryOk(s, k, e, j); }
    AddShared(s, k, e);
    hide Counted, PendingOk, FaultsOk, EntryOk, Mappers, Holders, Uniform, RegisteredOk;
  }

  lemma AddShared(s: State, k: Slot, e: Pte)
    requires Inv(s) && Addable(s, k, e)
    ensures Uniform(WithEntry(s, k, e)) && RegisteredOk(WithEntry(s, k, e))
  {
    hide Counted, PendingOk, FaultsOk, EntryOk, Mappers, Holders;
  }

  /** A frame from the allocator. */
  lemma FreshFrame(s: State, p: nat)
    requires Inv(s) && p !in s.refs
    ensures Mappers(s.ptes, p) == {} && p !in s.registered
    ensures forall t :: t in s.pending ==> s.pending[t].target != p
    ensures forall t :: t in s.faults ==> s.faults[t].frame != p
  {
    hide Counted, Uniform;
    forall k | k in s.ptes ensures s.ptes[k].frame != p { assert EntryOk(s, k); }
  }

  /** Contents change, and frames come into use. */
  lemma TakeFrame(s: State, p: nat, register: bool, data: Contents)
    requires Inv(s) && p !in s.refs
    ensures Inv(s.(refs := s.refs[p := if register then 1 else 0], mem := s.mem[p := data],
                   registered := s.registered + if register then {p} else {}))
  {
    FreshFrame(s, p);
    var s' := s.(refs := s.refs[p := if register then 1 else 0], mem := s.mem[p := data],
                 registered := s.registered + if register then {p} else {});
    TakeFrames(s, p, register, data);
    hide FramesOk;
    forall q | q != p && Aside(s, q) ensures Aside(s', q) { hide PendingOk, FaultsOk; }
    hide Aside, Mappers;
    SameFaults(s, s');
    hide PendingOk, FaultsOk;
  }

  lemma TakeFrames(s: State, p: nat, register: bool, data: Contents)
    requires FramesOk(s) && p !in s.refs && p !in s.registered && Mappers(s.ptes, p) == {}
    ensures FramesOk(s.(refs := s.refs[p := if register then 1 else 0], mem := s.mem[p := data],
                        registered := s.registered + if register then {p} else {}))
  {
    var s' := s.(refs := s.refs[p := if register then 1 else 0], mem := s.mem[p := data],
                 registered := s.registered + if register then {p} else {});
    forall k | k in s.ptes ensures EntryOk(s', k) && s.ptes[k].frame != p { assert EntryOk(s, k); }
    hide EntryOk, Mappers;
  }

  lemma FaultNewInv(s: State, st: Step)
    requires Inv(s) && Enabled(s, st) && st.FaultNew?
    ensures Inv(Apply(s, st))
  {
    FreshFrame(s, st.frame);
    TakeFrame(s, st.frame, st.register, st.data);
    var s1 := s.(refs := s.refs[st.frame := if st.register then 1 else 0], mem := s.mem[st.frame := st.data],
                 registered := s.registered + if st.register then {st.frame} else {});
    HoldFault(s1, st.thread, Fault(st.slot, st.frame, st.writable, st.shared));
  }

  /** A thread comes to hold a registered frame or one of its own. */
  lemma HoldFault(s: State, t: nat, f: Fault)
    requires Inv(s) && t !in s.faults && if f.frame in s.registered then f.shared else Aside(s, f.frame)
    requires forall u :: u in s.pending ==> s.pending[u].target != f.frame
    requires f.frame !in s.registered ==> forall u :: u in s.faults ==> s.faults[u].frame != f.frame
    ensures Inv(s.(faults := s.faults[t := f]))
  {
    var s' := s.(faults := s.faults[t := f]);
    hide FramesOk, Aside;
    SameFrames(s, s');
  }

  lemma ForgetFault(s: State, t: nat)
    requires Inv(s) && t in s.faults
    ensures Inv(s.(faults := s.faults - {t}))
  {
    var s' := s.(faults := s.faults - {t});
    hide FramesOk, Aside;
    SameFrames(s, s');
  }

  /** The fault that comes first maps its frame. */
  lemma FaultMapsInv(s: State, t: nat)
    requires Inv(s) && t in s.faults && s.faults[t].slot !in s.ptes
    ensures Inv(Faulted(s, t, true))
  {
    var f := s.faults[t];
    var s1, e := s.(faults := s.faults - {t}), Pte(f.frame, f.writable, false, f.shared);
    ForgetFault(s, t);
    FaultAddable(s, t);
    hide Inv, Addable, Mappers;
    FaultedEntry(s, t);
    hide Faulted, WithEntry, Holders;
    AddEntryInv(s1, f.slot, e);
  }

  lemma FaultedEntry(s: State, t: nat)
    requires t in s.faults && s.faults[t].slot !in s.ptes
    requires s.faults[t].frame in s.refs && s.refs[s.faults[t].frame] == Holders(s, s.faults[t].frame)
    ensures var f := s.faults[t];
            Faulted(s, t, true) == WithEntry(s.(faults := s.faults - {t}), f.slot, Pte(f.frame, f.writable, false, f.shared))
  {
    hide Mappers;
  }

  lemma FaultAddable(s: State, t: nat)
    requires Inv(s) && t in s.faults && s.faults[t].slot !in s.ptes
    ensures var f := s.faults[t];
            && Addable(s.(faults := s.faults - {t}), f.slot, Pte(f.frame, f.writable, false, f.shared))
            && f.frame in s.refs && s.refs[f.frame] == Holders(s, f.frame)
  {
    hide EntryOk, Uniform;
    var f := s.faults[t];
    assert forall j :: j in s.ptes && s.ptes[j].frame == f.frame ==> j in Mappers(s.ptes, f.frame);
    hide Mappers;
  }

  /** A frame nobody refers to is given back. */
  lemma ReleaseInv(s: State, p: nat)
    requires Inv(s) && Aside(s, p)
    requires forall t :: t in s.pending ==> s.pending[t].target != p
    requires forall t :: t in s.faults ==> s.faults[t].frame != p
    ensures Inv(s.(refs := s.refs - {p}))
  {
    var s' := s.(refs := s.refs - {p});
    forall q | q != p && Aside(s, q) ensures Aside(s', q) { hide PendingOk, FaultsOk, FramesOk; }
    forall k | k in s.ptes ensures EntryOk(s', k) {
      hide PendingOk, FaultsOk;
      assert EntryOk(s, k) && k !in Mappers(s.ptes, p);
    }
    hide Mappers, EntryOk, Aside;
    SameFaults(s, s');
    hide PendingOk, FaultsOk;
  }

  /** A fault that comes second or finds no table frees its frame, which keeps the invariant exactly when
      the frame is not in the table of shared pages. */
  lemma FaultLostIff(s: State, t: nat, table: bool)
    requires Inv(s) && t in s.faults && GivesUp(s, t, table)
    ensures Inv(Faulted(s, t, table)) <==> s.faults[t].frame !in s.registered
  {
    var f := s.faults[t];
    if f.frame !in s.registered {
      ForgetFault(s, t);
      ReleaseInv(s.(faults := s.faults - {t}), f.frame);
    } else {
      assert f.frame in Faulted(s, t, table).registered && f.frame !in Faulted(s, t, table).refs;
    }
  }

  lemma FlagsEntryOk(s: State, k: Slot, e: Pte, j: Slot)
    requires FramesOk(s) && k in s.ptes && e.frame == s.ptes[k].frame && j in s.ptes
    requires (e.cow ==> !e.writable && !e.shared) && (e.writable && !e.shared ==> Mappers(s.ptes, e.frame) == {k})
    ensures EntryOk(s.(ptes := s.ptes[k := e]), j)
  {
    hide Counted, Uniform, RegisteredOk;
    MapFlags(s.ptes, k, e, s.ptes[j].frame);
    assert EntryOk(s, j);
    hide Mappers;
  }

  lemma FlagsCounted(s: State, k: Slot, e: Pte)
    requires FramesOk(s) && k in s.ptes && e.frame == s.ptes[k].frame
    ensures var s' := s.(ptes := s.ptes[k := e]); Counted(s') && forall p :: Aside(s, p) ==> Aside(s', p)
  {
    hide EntryOk, Uniform, RegisteredOk;
    var s' := s.(ptes := s.ptes[k := e]);
    forall p | p in s.refs ensures s.refs[p] == Holders(s', p) && (Aside(s, p) ==> Aside(s', p)) {
      MapFlags(s.ptes, k, e, p);
      hide Mappers;
    }
    hide Mappers;
  }

  lemma FlagsInv(s: State, k: Slot, e: Pte)
    requires Inv(s) && k in s.ptes && e.frame == s.ptes[k].frame && e.shared == s.ptes[k].shared
    requires (e.cow ==> !e.writable && !e.shared) && (e.writable && !e.shared ==> Mappers(s.ptes, e.frame) == {k})
    ensures Inv(s.(ptes := s.ptes[k := e]))
  {
    var s' := s.(ptes := s.ptes[k := e]);
    FlagsCounted(s, k, e);
    FlagsShared(s, k, e);
    forall j | j in s'.ptes ensures EntryOk(s', j) { FlagsEntryOk(s, k, e, j); }
    hide Counted, EntryOk, Aside, Mappers, Uniform, RegisteredOk;
    SameFaults(s, s');
    hide PendingOk, FaultsOk;
  }

  lemma FlagsShared(s: State, k: Slot, e: Pte)
    requires Uniform(s) && RegisteredOk(s) && k in s.ptes && e.frame == s.ptes[k].frame && e.shared == s.ptes[k].shared
    ensures Uniform(s.(ptes := s.ptes[k := e])) && RegisteredOk(s.(ptes := s.ptes[k := e]))
  {
  }

  /** A private entry of a frame with one reference is its only entry. */
  lemma SoleMapper(s: State, k: Slot)
    requires Inv(s) && k in s.ptes && !s.ptes[k].shared
    ensures s.refs[s.ptes[k].frame] <= 1 <==> Mappers(s.ptes, s.ptes[k].frame) == {k}
  {
    var m := Mappers(s.ptes, s.ptes[k].frame);
    assert EntryOk(s, k);
    assert k in m && |m| == s.refs[s.ptes[k].frame];
    assert m == {k} + (m - {k});
    assert |m - {k}| == |m| - 1;
  }

  lemma ForkInv(s: State, st: Step)
    requires Inv(s) && Enabled(s, st) && st.ForkPte?
    ensures Inv(Apply(s, st))
  {
    var e, j := Downgraded(s.ptes[st.from]), Slot(st.child, st.from.page);
    assert EntryOk(s, st.from);
    FlagsInv(s, st.from, e);
    var s1 := s.(ptes := s.ptes[st.from := e]);
    assert e == Downgraded(s.ptes[st.from]) && !(e.writable && !e.shared);
    hide Downgraded;
    hide Inv;
    ForkReady(s1, st.from, e, j);
    AddEntryInv(s1, j, e);
  }

  /** After the downgrade, no entry of the frame can be written privately. */
  lemma ForkReady(s: State, k: Slot, e: Pte, j: Slot)
    requires Inv(s) && k in s.ptes && s.ptes[k] == e && !(e.writable && !e.shared) && j !in s.ptes
    ensures e.frame in s.refs && s.refs[e.frame] == Holders(s, e.frame) && Addable(s, j, e)
  {
    assert k in Mappers(s.ptes, e.frame);
    assert EntryOk(s, k);
    forall i | i in s.ptes && s.ptes[i].frame == e.frame ensures s.ptes[i].writable ==> e.shared {
      assert EntryOk(s, i);
    }
    hide EntryOk, Counted;
    assert forall p :: Aside(s, p) ==> p != e.frame;
    hide Aside, Mappers;
  }

  /** Taking an entry away. */
  ghost function WithoutEntry(s: State, k: Slot): State
    requires k in s.ptes && s.ptes[k].frame in s.refs
  {
    s.(ptes := s.ptes - {k}, refs := Dropped(s.refs, s.ptes[k].frame))
  }

  lemma RemoveEntryOk(s: State, k: Slot, j: Slot)
    requires Inv(s) && k in s.ptes && s.ptes[k].frame in s.refs && j in s.ptes && j != k
    ensures EntryOk(WithoutEntry(s, k), j)
  {
    hide Uniform, PendingOk, FaultsOk, RegisteredOk;
    var f, g := s.ptes[k].frame, s.ptes[j].frame;
    MapRemove(s.ptes, k, g);
    assert EntryOk(s, j) && j in Mappers(s.ptes, g) && j in Mappers(s.ptes - {k}, g);
    assert |Mappers(s.ptes - {k}, g)| > 0;
    hide Mappers;
  }

  lemma RemoveCounted(s: State, k: Slot)
    requires Inv(s) && k in s.ptes && s.ptes[k].frame in s.refs
    ensures Counted(WithoutEntry(s, k)) && s.registered <= WithoutEntry(s, k).refs.Keys
  {
    hide EntryOk, Uniform, PendingOk, FaultsOk;
    var s' := WithoutEntry(s, k);
    forall p | p in s'.refs ensures s'.refs[p] == Holders(s', p) {
      MapRemove(s.ptes, k, p);
      hide Mappers;
    }
    MapRemove(s.ptes, k, s.ptes[k].frame);
    hide Mappers;
  }

  lemma RemoveAside(s: State, k: Slot, p: nat)
    requires Inv(s) && k in s.ptes && s.ptes[k].frame in s.refs && Aside(s, p)
    ensures Aside(WithoutEntry(s, k), p)
  {
    hide EntryOk, Uniform, Counted, PendingOk, FaultsOk;
    MapRemove(s.ptes, k, p);
    assert k !in Mappers(s.ptes, p);
  }

  lemma RemovePendingOk(s: State, k: Slot)
    requires Inv(s) && k in s.ptes && s.ptes[k].frame in s.refs
    ensures PendingOk(WithoutEntry(s, k)) && FaultsOk(WithoutEntry(s, k))
  {
    forall p | Aside(s, p) ensures Aside(WithoutEntry(s, k), p) { RemoveAside(s, k, p); }
    hide FramesOk, Aside;
    SameFaults(s, WithoutEntry(s, k));
  }

  lemma RemoveEntryInv(s: State, k: Slot)
    requires Inv(s) && k in s.ptes
    ensures s.ptes[k].frame in s.refs && Inv(WithoutEntry(s, k))
  {
    assert EntryOk(s, k);
    RemoveCounted(s, k);
    RemovePendingOk(s, k);
    forall j | j in s.ptes && j != k ensures EntryOk(WithoutEntry(s, k), j) { RemoveEntryOk(s, k, j); }
    hide Counted, PendingOk, FaultsOk, EntryOk, Mappers;
  }

  lemma CowStartInv(s: State, st: Step)
    requires Inv(s) && Enabled(s, st) && st.CowStart?
    ensures Inv(Apply(s, st))
  {
    FreshFrame(s, st.frame);
    TakeFrame(s, st.frame, false, st.data);
    var s1 := s.(refs := s.refs[st.frame := 0], mem := s.mem[st.frame := st.data], registered := s.registered + {});
    assert s1.registered == s.registered && Aside(s1, st.frame);
    HoldPending(s1, st.thread, Pending(st.slot, s.ptes[st.slot].frame, st.frame, false));
  }

  lemma HoldPending(s: State, t: nat, f: Pending)
    requires Inv(s) && Aside(s, f.target) && f.source != f.target && f.source in s.mem
    requires forall u :: u in s.pending && u != t ==> s.pending[u].target != f.target
    requires forall u :: u in s.faults ==> s.faults[u].frame != f.target
    ensures Inv(s.(pending := s.pending[t := f]))
  {
    var s' := s.(pending := s.pending[t := f]);
    hide FramesOk, Aside;
    SameFrames(s, s');
  }

  lemma FinishInv(s: State, t: nat, sameSlot: bool)
    requires Inv(s) && t in s.pending
    ensures Inv(Finished(s, t, sameSlot))
  {
    var f := s.pending[t];
    if !StillFaulting(s, f, sameSlot) {
      DiscardInv(s, t);
    } else {
      assert EntryOk(s, f.slot);
      SoleMapper(s, f.slot);
      if f.source in s.refs && s.refs[f.source] > 1 {
        InstallInv(s, t);
      } else {
        FlagsInv(s, f.slot, s.ptes[f.slot].(writable := true, cow := false));
        DiscardInv(s.(ptes := s.ptes[f.slot := s.ptes[f.slot].(writable := true, cow := false)]), t);
      }
    }
  }

  /** The copy is thrown away. */
  lemma DiscardInv(s: State, t: nat)
    requires Inv(s) && t in s.pending
    ensures Inv(s.(pending := s.pending - {t}, refs := s.refs - {s.pending[t].target}))
  {
    TargetAside(s, t);
    ForgetPendingInv(s, t);
    hide Inv;
    ReleaseInv(s.(pending := s.pending - {t}), s.pending[t].target);
  }

  /** The frame a fault has set aside is unmapped and nobody else's. */
  lemma TargetAside(s: State, t: nat)
    requires Inv(s) && t in s.pending
    ensures var g := s.pending[t].target;
            && Aside(s, g) && s.refs[g] == 0 && g in s.mem && g != s.pending[t].source && Mappers(s.ptes, g) == {}
            && (forall u :: u in s.pending && u != t ==> s.pending[u].target != g)
            && (forall u :: u in s.faults ==> s.faults[u].frame != g)
  {
    hide EntryOk, Uniform;
  }

  /** The copy replaces the shared frame in the faulting entry. */
  lemma InstallInv(s: State, t: nat)
    requires Inv(s) && t in s.pending && StillFaulting(s, s.pending[t], true)
    requires s.pending[t].source in s.refs && s.refs[s.pending[t].source] > 1
    ensures Inv(Finished(s, t, true))
  {
    hide Inv;
    TargetAside(s, t);
    var f := s.pending[t];
    RemoveEntryInv(s, f.slot);
    var s1 := WithoutEntry(s, f.slot);
    ForgetPendingInv(s1, t);
    var e := s.ptes[f.slot].(frame := f.target, writable := true, cow := false);
    MapRemove(s.ptes, f.slot, f.target);
    Reinstall(s1.(pending := s.pending - {t}), f.slot, e);
    assert (s.ptes - {f.slot})[f.slot := e] == s.ptes[f.slot := e];
  }

  lemma Reinstall(s: State, k: Slot, e: Pte)
    requires Inv(s) && k !in s.ptes && !e.cow && Mappers(s.ptes, e.frame) == {} && e.frame in s.mem && e.frame !in s.registered
    requires forall u :: u in s.pending ==> s.pending[u].target != e.frame
    requires forall u :: u in s.faults ==> s.faults[u].frame != e.frame
    ensures Inv(s.(ptes := s.ptes[k := e], refs := s.refs[e.frame := 1]))
  {
    hide Inv;
    assert forall j :: j in s.ptes && s.ptes[j].frame == e.frame ==> j in Mappers(s.ptes, e.frame);
    assert Addable(s, k, e) && Holders(s, e.frame) == 0 by { hide Mappers; }
    hide Addable, Holders;
    AddEntryInv(s, k, e);
  }

  lemma ForgetPendingInv(s: State, t: nat)
    requires Inv(s)
    ensures Inv(s.(pending := s.pending - {t}))
  {
    var s' := s.(pending := s.pending - {t});
    hide FramesOk, Aside;
    SameFrames(s, s');
  }

  lemma MemInv(s: State, mem: map<nat, Contents>)
    requires Inv(s) && s.mem.Keys <= mem.Keys
    ensures Inv(s.(mem := mem))
  {
    var s' := s.(mem := mem);
    hide FramesOk, Aside;
    SameFrames(s, s');
  }

  lemma CopyInv(s: State, t: nat)
    requires Inv(s) && Enabled(s, CowCopy(t))
    ensures Inv(Apply(s, CowCopy(t)))
  {
    var s1 := s.(pending := s.pending[t := s.pending[t].(copied := true)]);
    TargetAside(s, t);
    HoldPending(s, t, s.pending[t].(copied := true));
    hide Inv;
    MemInv(s1, s.mem[s.pending[t].target := s.mem[s.pending[t].source]]);
  }

  // ----- the steps that do not -----

  /** A fault that frees a frame of the table of shared pages, or write access given to a private entry
      whose frame it shares. */
  predicate Unsafe(s: State, st: Step) {
    match st
    case FaultFinish(t, table) => t in s.faults && GivesUp(s, t, table) && s.faults[t].frame in s.registered
    case Protect(slot, w) =>
      && w && slot in s.ptes && !s.ptes[slot].shared
      && (s.ptes[slot].cow || s.ptes[slot].frame !in s.refs || s.refs[s.ptes[slot].frame] > 1)
    case _ => false
  }

  lemma ProtectIff(s: State, slot: Slot, w: bool)
    requires Inv(s) && Enabled(s, Protect(slot, w))
    ensures Inv(Apply(s, Protect(slot, w))) <==> !Unsafe(s, Protect(slot, w))
  {
    var e := s.ptes[slot].(writable := w);
    assert EntryOk(s, slot);
    if !s.ptes[slot].shared { SoleMapper(s, slot); }
    if !Unsafe(s, Protect(slot, w)) {
      FlagsInv(s, slot, e);
    } else {
      MapFlags(s.ptes, slot, e, e.frame);
      assert !EntryOk(Apply(s, Protect(slot, w)), slot);
    }
  }

  /** A step of any thread keeps the invariant exactly when it is none of the two. */
  lemma StepInv(s: State, st: Step)
    requires Inv(s) && Enabled(s, st)
    ensures Inv(Apply(s, st)) <==> !Unsafe(s, st)
  {
    hide Mappers, Uniform, Counted, PendingOk, FaultsOk;
    match st
    case FaultNew(_, _, _, _, _, _, _) => FaultNewInv(s, st);
    case FaultCached(t, slot, frame, w) => CachedInv(s, st);
    case FaultFinish(t, table) => if GivesUp(s, t, table) { FaultLostIff(s, t, table); } else { FaultMapsInv(s, t); }
    case ForkPte(_, _) => ForkInv(s, st);
    case ForkPteFailed(from) =>
      assert EntryOk(s, from);
      FlagsInv(s, from, Downgraded(s.ptes[from]));
    case CowSole(slot) =>
      assert EntryOk(s, slot);
      SoleMapper(s, slot);
      FlagsInv(s, slot, s.ptes[slot].(writable := true, cow := false));
    case CowStart(_, _, _, _) => CowStartInv(s, st);
    case CowCopy(t) => CopyInv(s, t);
    case CowFinish(t, sameSlot) => FinishInv(s, t, sameSlot);
    case Protect(slot, w) => ProtectIff(s, slot, w);
    case Unmap(slot) => RemoveEntryInv(s, slot);
    case Write(slot, data) => MemInv(s, s.mem[s.ptes[slot].frame := data]);
    case Reuse(frame, data) => MemInv(s, s.mem[frame := data]);
    case Forget(frame) =>
  }

  lemma CachedInv(s: State, st: Step)
    requires Inv(s) && Enabled(s, st) && st.FaultCached?
    ensures Inv(Apply(s, st))
  {
    assert forall u :: u in s.pending ==> Aside(s, s.pending[u].target);
    HoldFault(s, st.thread, Fault(st.slot, st.frame, st.writable, true));
  }

  // ----- runs -----

  /** `run` is a run of `steps` from `s0`. */
  ghost predicate IsRun(s0: State, steps: seq<Step>, run: seq<State>) {
    && |run| == |steps| + 1 && run[0] == s0
    && forall i :: 0 <= i < |steps| ==> Enabled(run[i], steps[i]) && run[i + 1] == Apply(run[i], steps[i])
  }

  ghost predicate SafeUpTo(steps: seq<Step>, run: seq<State>, n: nat) {
    n <= |steps| && n <= |run| && forall i :: 0 <= i < n ==> !Unsafe(run[i], steps[i])
  }

  /** In every run of forks, faults, unmaps and writes, in every interleaving, the states satisfy the
      invariant exactly as long as no step is unsafe. */
  lemma {:induction false} RunInv(s0: State, steps: seq<Step>, run: seq<State>, n: nat)
    requires Inv(s0) && IsRun(s0, steps, run) && n <= |steps|
    ensures (forall m :: 0 <= m <= n ==> Inv(run[m])) <==> SafeUpTo(steps, run, n)
    decreases n
  {
    hide Inv, Unsafe;
    if n > 0 {
      RunInv(s0, steps, run, n - 1);
      var s, st := run[n - 1], steps[n - 1];
      assert Enabled(s, st) && run[n] == Apply(s, st);
      if Inv(s) { StepInv(s, st); }
      hide Enabled, Apply;
      assert SafeUpTo(steps, run, n) <==> SafeUpTo(steps, run, n - 1) && !Unsafe(s, st);
      hide SafeUpTo;
      assert (forall m :: 0 <= m <= n ==> Inv(run[m])) <==> (forall m :: 0 <= m <= n - 1 ==> Inv(run[m])) && Inv(run[n]);
      assert (forall m :: 0 <= m <= n - 1 ==> Inv(run[m])) ==> Inv(s);
    }
  }

  lemma InitialInv()
    ensures Inv(Initial)
  {
  }

  // ----- what processes see -----

  datatype View = Nothing | Page(data: Contents)

  ghost function Sees(s: State, k: Slot): View {
    if k in s.ptes && s.ptes[k].frame in s.mem then Page(s.mem[s.ptes[k].frame]) else Nothing
  }

  /** A write through a private entry changes what that entry shows and nothing else, in any address space. */
  lemma WriteIsPrivate(s: State, slot: Slot, data: Contents, k: Slot)
    requires Inv(s) && Enabled(s, Write(slot, data)) && !s.ptes[slot].shared
    ensures Sees(Apply(s, Write(slot, data)), k) == if k == slot then Page(data) else Sees(s, k)
  {
    assert EntryOk(s, slot);
    if k in s.ptes && k != slot {
      assert k !in Mappers(s.ptes, s.ptes[slot].frame);
    }
  }

  /** The entry a step maps, unmaps or writes; every other entry must look the same afterwards. */
  function Touches(s: State, st: Step): set<Slot> {
    match st
    case FaultFinish(t, table) => if t in s.faults && !GivesUp(s, t, table) then {s.faults[t].slot} else {}
    case ForkPte(from, child) => {Slot(child, from.page)}
    case Unmap(slot) => {slot}
    case CowFinish(t, _) => if t in s.pending then {s.pending[t].slot} else {}
    case _ => {}
  }

  /** A step other than a write shows through no entry but the one it maps or unmaps: forks and faults
      of one process are invisible to all others. */
  lemma OthersUnaffected(s: State, st: Step, k: Slot)
    requires Inv(s) && Enabled(s, st) && !st.Write? && k !in Touches(s, st)
    ensures Sees(Apply(s, st), k) == Sees(s, k)
  {
    hide Uniform, Counted, PendingOk, FaultsOk, RegisteredOk;
    if k in s.ptes {
      assert EntryOk(s, k);
      if st.CowCopy? {
        TargetAside(s, st.thread);
        assert k !in Mappers(s.ptes, s.pending[st.thread].target);
      }
    }
  }

  /** The child of a fork sees what the parent sees. */
  lemma ForkCopiesView(s: State, from: Slot, child: nat)
    requires Inv(s) && Enabled(s, ForkPte(from, child))
    ensures Sees(Apply(s, ForkPte(from, child)), Slot(child, from.page)) == Sees(s, from)
  {
    assert EntryOk(s, from);
  }

  // ----- who may write -----

  /** The process may write the page: at once, or after a write fault. */
  predicate MayWrite(s: State, k: Slot) {
    k in s.ptes && (s.ptes[k].writable || s.ptes[k].cow)
  }

  /** The steps by which a process changes what it may do with its own page. */
  predicate Rights(st: Step, k: Slot) {
    (st.Unmap? || st.Protect?) && st.slot == k
  }

  /** No other step takes write access from an entry or gives it, or makes it private or shared. */
  lemma StepAccess(s: State, st: Step, k: Slot)
    requires Enabled(s, st) && k in s.ptes && !Rights(st, k)
    ensures var s' := Apply(s, st);
            k in s'.ptes && s'.ptes[k].shared == s.ptes[k].shared && (MayWrite(s', k) <==> MayWrite(s, k))
  {
    if st.FaultFinish? {
      FaultedElsewhere(s, st.thread, st.table, k);
    } else if st.CowFinish? {
      FinishedAccess(s, st.thread, st.sameSlot, k);
    } else {
      hide Faulted, Finished, Dropped;
    }
  }

  lemma FinishedAccess(s: State, t: nat, sameSlot: bool, k: Slot)
    requires t in s.pending && k in s.ptes
    ensures var s' := Finished(s, t, sameSlot);
            k in s'.ptes && s'.ptes[k].shared == s.ptes[k].shared && (MayWrite(s', k) <==> MayWrite(s, k))
  {
  }

  /** In every run, whatever forks, faults and writes happen, a mapped page may be written exactly as before until its
      own process unmaps it or changes its rights. */
  lemma {:induction false} RunAccess(s0: State, steps: seq<Step>, run: seq<State>, k: Slot, i: nat, j: nat)
    requires IsRun(s0, steps, run) && i <= j <= |steps| && k in run[i].ptes
    requires forall m :: i <= m < j ==> !Rights(steps[m], k)
    ensures k in run[j].ptes && run[j].ptes[k].shared == run[i].ptes[k].shared
    ensures MayWrite(run[j], k) <==> MayWrite(run[i], k)
    decreases j
  {
    if j > i {
      RunAccess(s0, steps, run, k, i, j - 1);
      hide Enabled, Apply, MayWrite;
      StepAccess(run[j - 1], steps[j - 1], k);
    }
  }

  /** A fork gives the child the parent's entry. A shared entry stays as it was; a private one is writable in neither,
      and copy-on-write in both exactly when the parent could write it. */
  lemma ForkAccess(s: State, from: Slot, child: nat)
    requires Inv(s) && Enabled(s, ForkPte(from, child))
    ensures var s', to := Apply(s, ForkPte(from, child)), Slot(child, from.page);
            && from in s'.ptes && to in s'.ptes && s'.ptes[to] == s'.ptes[from]
            && s'.ptes[from].frame == s.ptes[from].frame && s'.ptes[from].shared == s.ptes[from].shared
            && (s.ptes[from].shared ==> s'.ptes[from] == s.ptes[from])
            && (!s.ptes[from].shared ==> !s'.ptes[from].writable && (s'.ptes[from].cow <==> MayWrite(s, from)))
  {
    assert EntryOk(s, from);
  }

  /** A fork that cannot map a page in the child leaves the parent's entry as one that can. */
  lemma ForkFailedAccess(s: State, from: Slot)
    requires Inv(s) && Enabled(s, ForkPteFailed(from))
    ensures var s' := Apply(s, ForkPteFailed(from));
            && from in s'.ptes && s'.ptes[from].frame == s.ptes[from].frame && s'.ptes[from].shared == s.ptes[from].shared
            && (s.ptes[from].shared ==> s'.ptes[from] == s.ptes[from])
            && (!s.ptes[from].shared ==> !s'.ptes[from].writable && (s'.ptes[from].cow <==> MayWrite(s, from)))
  {
    assert EntryOk(s, from);
  }

  /** A change of rights sets the write permission alone, so changing it back restores everything; a copy-on-write page
      stays one. */
  lemma ProtectBack(s: State, slot: Slot, w: bool)
    requires Enabled(s, Protect(slot, w))
    ensures var s' := Apply(s, Protect(slot, w));
            && (MayWrite(s', slot) <==> w || s.ptes[slot].cow)
            && Enabled(s', Protect(slot, s.ptes[slot].writable)) && Apply(s', Protect(slot, s.ptes[slot].writable)) == s
  {
    var w0 := s.ptes[slot].writable;
    assert s.ptes[slot := s.ptes[slot].(writable := w)][slot := s.ptes[slot].(writable := w0)] == s.ptes;
  }

  // ----- no frame is lost -----

  /** A half-done fault of thread `t` holds frame `p`. */
  predicate Holds(s: State, t: nat, p: nat) {
    (t in s.pending && s.pending[t].target == p) || (t in s.faults && s.faults[t].frame == p)
  }

  predicate Maps(s: State, k: Slot, p: nat) {
    k in s.ptes && s.ptes[k].frame == p
  }

  /** Somebody has a use for the frame: an entry, the table of shared pages or a half-done fault. */
  ghost predicate Needed(s: State, p: nat) {
    p in s.registered || (exists k :: Maps(s, k, p)) || (exists t :: Holds(s, t, p))
  }

  ghost predicate NoneLost(s: State) {
    forall p :: p in s.refs ==> Needed(s, p)
  }

  /** The uses of frame `p` all remain. */
  lemma StillNeeded(s: State, s': State, p: nat)
    requires Needed(s, p) && (p in s.registered ==> p in s'.registered)
    requires forall k :: Maps(s, k, p) ==> Maps(s', k, p)
    requires forall t :: Holds(s, t, p) ==> Holds(s', t, p)
    ensures Needed(s', p)
  {
  }

  /** A frame with two references has another entry, or is registered, besides the entry of `k`. */
  lemma OtherUse(s: State, k: Slot, p: nat)
    requires Counted(s) && p in s.refs && s.refs[p] > 1 && Maps(s, k, p)
    ensures p in s.registered || exists j :: j != k && Maps(s, j, p)
  {
    if p !in s.registered {
      var rest := Mappers(s.ptes, p) - {k};
      assert |rest| == |Mappers(s.ptes, p)| - 1;
      var j :| j in rest;
      assert j != k && Maps(s, j, p);
    }
  }

  lemma FaultedNeeded(s: State, t: nat, table: bool, p: nat)
    requires t in s.faults && p in Faulted(s, t, table).refs && (p in s.refs ==> Needed(s, p))
    ensures Needed(Faulted(s, t, table), p)
  {
    var s', f := Faulted(s, t, table), s.faults[t];
    if !GivesUp(s, t, table) && p == f.frame {
      assert Maps(s', f.slot, p);
    } else {
      StillNeeded(s, s', p);
    }
  }

  lemma FinishedNeeded(s: State, t: nat, sameSlot: bool, p: nat)
    requires Counted(s) && t in s.pending && p in Finished(s, t, sameSlot).refs && (p in s.refs ==> Needed(s, p))
    ensures Needed(Finished(s, t, sameSlot), p)
  {
    hide Counted;
    var s', f := Finished(s, t, sameSlot), s.pending[t];
    var installs := StillFaulting(s, f, sameSlot) && f.source in s.refs && s.refs[f.source] > 1;
    if installs && p == f.target {
      assert Maps(s', f.slot, p);
    } else if installs && p == f.source {
      OtherUse(s, f.slot, p);
      if p !in s.registered {
        var j :| j != f.slot && Maps(s, j, p);
        assert Maps(s', j, p);
      }
    } else {
      StillNeeded(s, s', p);
    }
  }

  lemma UnmappedNeeded(s: State, slot: Slot, p: nat)
    requires Counted(s) && Enabled(s, Unmap(slot)) && p in Apply(s, Unmap(slot)).refs && Needed(s, p)
    ensures Needed(Apply(s, Unmap(slot)), p)
  {
    hide Counted;
    var s' := Apply(s, Unmap(slot));
    if p == s.ptes[slot].frame {
      OtherUse(s, slot, p);
      if p !in s.registered {
        var j :| j != slot && Maps(s, j, p);
        assert Maps(s', j, p);
      }
    } else {
      StillNeeded(s, s', p);
    }
  }

  lemma ForkedNeeded(s: State, from: Slot, child: nat, p: nat)
    requires Enabled(s, ForkPte(from, child)) && p in Apply(s, ForkPte(from, child)).refs && (p in s.refs ==> Needed(s, p))
    ensures Needed(Apply(s, ForkPte(from, child)), p)
  {
    var s' := Apply(s, ForkPte(from, child));
    if p == s.ptes[from].frame {
      assert Maps(s', from, p);
    } else {
      StillNeeded(s, s', p);
    }
  }

  lemma TakenNeeded(s: State, st: Step, p: nat)
    requires Enabled(s, st) && (st.FaultNew? || st.FaultCached? || st.CowStart?)
    requires p in Apply(s, st).refs && (p in s.refs ==> Needed(s, p))
    ensures Needed(Apply(s, st), p)
  {
    var s' := Apply(s, st);
    if p == st.frame {
      assert Holds(s', st.thread, p);
    } else {
      StillNeeded(s, s', p);
    }
  }

  lemma StepNoneLost(s: State, st: Step)
    requires Inv(s) && Enabled(s, st) && NoneLost(s)
    ensures NoneLost(Apply(s, st))
  {
    hide PendingOk, FaultsOk, Uniform, EntryOk, RegisteredOk, Counted, Needed, Mappers;
    var s' := Apply(s, st);
    forall p | p in s'.refs ensures Needed(s', p) {
      match st
      case FaultNew(_, _, _, _, _, _, _) => TakenNeeded(s, st, p);
      case FaultCached(_, _, _, _) => TakenNeeded(s, st, p);
      case CowStart(_, _, _, _) => TakenNeeded(s, st, p);
      case FaultFinish(t, table) => FaultedNeeded(s, t, table, p);
      case ForkPte(from, child) => ForkedNeeded(s, from, child, p);
      case CowFinish(t, sameSlot) => FinishedNeeded(s, t, sameSlot, p);
      case Unmap(slot) => UnmappedNeeded(s, slot, p);
      case _ => KeepsNeeded(s, st, p);
    }
  }

  lemma KeepsNeeded(s: State, st: Step, p: nat)
    requires Enabled(s, st) && p in s.refs && Needed(s, p)
    requires st.ForkPteFailed? || st.CowSole? || st.CowCopy? || st.Protect? || st.Write? || st.Reuse? || st.Forget?
    ensures Needed(Apply(s, st), p)
  {
    StillNeeded(s, Apply(s, st), p);
  }

  /** No frame is lost: in every run from the start, up to the first unsafe step, a frame is in use exactly when an
      entry, the table of shared pages or a half-done fault refers to it. */
  lemma {:induction false} RunNoneLost(steps: seq<Step>, run: seq<State>, n: nat)
    requires IsRun(Initial, steps, run) && n <= |steps| && SafeUpTo(steps, run, n)
    ensures NoneLost(run[n]) && forall p :: Needed(run[n], p) ==> p in run[n].refs
    decreases n
  {
    InitialInv();
    RunInv(Initial, steps, run, n);
    if n > 0 {
      RunNoneLost(steps, run, n - 1);
      hide Inv, Unsafe, NoneLost, Enabled, Apply;
      StepNoneLost(run[n - 1], steps[n - 1]);
    }
    NeededUsed(run[n]);
  }

  lemma NeededUsed(s: State)
    requires Inv(s)
    ensures forall p :: Needed(s, p) ==> p in s.refs
  {
    hide Mappers, Counted, Uniform;
    assert forall k :: k in s.ptes ==> EntryOk(s, k);
  }

  // ----- a page that is touched first -----

  /** Thread `t` begins a fault on an absent page at step `h` and has not ended it at step `j`. */
  ghost predicate Faulting(steps: seq<Step>, t: nat, h: nat, j: nat) {
    && h < j <= |steps| && (steps[h].FaultNew? || steps[h].FaultCached?) && steps[h].thread == t
    && forall m :: h < m < j ==> !(steps[m].FaultFinish? && steps[m].thread == t)
  }

  function Asked(st: Step): Fault
    requires st.FaultNew? || st.FaultCached?
  {
    Fault(st.slot, st.frame, st.writable, st.FaultCached? || st.shared)
  }

  lemma FaultStays(s: State, st: Step, t: nat)
    requires Enabled(s, st) && t in s.faults && !(st.FaultFinish? && st.thread == t)
    ensures t in Apply(s, st).faults && Apply(s, st).faults[t] == s.faults[t]
  {
  }

  lemma {:induction false} FaultHeld(s0: State, steps: seq<Step>, run: seq<State>, t: nat, h: nat, j: nat)
    requires IsRun(s0, steps, run) && Faulting(steps, t, h, j)
    ensures t in run[j].faults && run[j].faults[t] == Asked(steps[h])
    decreases j
  {
    if j > h + 1 {
      FaultHeld(s0, steps, run, t, h, j - 1);
      FaultStays(run[j - 1], steps[j - 1], t);
    }
  }

  /** Nobody writes a frame set aside for a fault. */
  lemma AsideUnwritten(s: State, st: Step, t: nat)
    requires Inv(s) && Enabled(s, st) && t in s.faults && s.faults[t].frame !in s.registered
    requires !(st.FaultFinish? && st.thread == t)
    ensures var g := s.faults[t].frame;
            g in s.mem && g in Apply(s, st).mem && Apply(s, st).mem[g] == s.mem[g] && g !in Apply(s, st).registered
  {
    hide Uniform, Counted, EntryOk;
    var g := s.faults[t].frame;
    assert Aside(s, g);
    if st.Write? { assert st.slot !in Mappers(s.ptes, g); }
    hide Mappers;
  }

  lemma {:induction false} FaultUnwritten(s0: State, steps: seq<Step>, run: seq<State>, t: nat, h: nat, j: nat)
    requires Inv(s0) && IsRun(s0, steps, run) && Faulting(steps, t, h, j) && SafeUpTo(steps, run, j)
    requires steps[h].FaultNew? && !steps[h].register
    ensures var g := steps[h].frame; g in run[j].mem && run[j].mem[g] == steps[h].data && g !in run[j].registered
    decreases j
  {
    hide Inv, Unsafe;
    if j > h + 1 {
      FaultUnwritten(s0, steps, run, t, h, j - 1);
      FaultHeld(s0, steps, run, t, h, j - 1);
      RunInv(s0, steps, run, j);
      AsideUnwritten(run[j - 1], steps[j - 1], t);
    } else {
      RunInv(s0, steps, run, j);
      NewUnregistered(run[h], steps[h]);
    }
  }

  lemma NewUnregistered(s: State, st: Step)
    requires Inv(s) && Enabled(s, st) && st.FaultNew? && !st.register
    ensures var s' := Apply(s, st); st.frame in s'.mem && s'.mem[st.frame] == st.data && st.frame !in s'.registered
  {
  }

  /** In every run, a fault on an absent page that still finds it absent maps the frame it took with the rights it was
      asked for, and a page of its own shows what it was filled with. */
  lemma FaultMaps(s0: State, steps: seq<Step>, run: seq<State>, t: nat, h: nat, j: nat)
    requires Inv(s0) && IsRun(s0, steps, run) && Faulting(steps, t, h, j) && SafeUpTo(steps, run, j)
    requires j < |steps| && steps[j] == FaultFinish(t, true) && steps[h].slot !in run[j].ptes
    ensures var k := steps[h].slot;
            && k in run[j + 1].ptes
            && run[j + 1].ptes[k] == Pte(steps[h].frame, steps[h].writable, false, steps[h].FaultCached? || steps[h].shared)
            && (steps[h].FaultNew? && !steps[h].register ==> Sees(run[j + 1], k) == Page(steps[h].data))
  {
    hide Inv, Unsafe;
    FaultHeld(s0, steps, run, t, h, j);
    if steps[h].FaultNew? && !steps[h].register {
      FaultUnwritten(s0, steps, run, t, h, j);
    }
  }

  // ----- the faulting process itself -----

  /** While a fault is pending, nobody else writes the copy. */
  lemma TargetUntouched(s: State, st: Step, t: nat)
    requires Inv(s) && Enabled(s, st) && t in s.pending && s.pending[t].copied
    requires !(st.CowFinish? && st.thread == t)
    ensures var s' := Apply(s, st);
            t in s'.pending && s'.pending[t] == s.pending[t] && s.pending[t].target in s'.mem
            && s'.mem[s.pending[t].target] == s.mem[s.pending[t].target]
  {
    hide Uniform, Counted, EntryOk;
    var g := s.pending[t].target;
    TargetAside(s, t);
    if st.Write? { assert st.slot !in Mappers(s.ptes, g); }
  }

  /** Steps `i` and `j` of a run are the copy and the end of the same write fault of thread `t`. */
  ghost predicate CopyThenFinish(steps: seq<Step>, t: nat, i: nat, j: nat) {
    && i < j <= |steps| && steps[i] == CowCopy(t)
    && forall m :: i < m < j ==> !(steps[m].CowFinish? && steps[m].thread == t)
  }

  /** Up to the end of the fault, the copy holds what the source held at the copy step. */
  lemma {:induction false} CopyHeld(s0: State, steps: seq<Step>, run: seq<State>, t: nat, i: nat, j: nat)
    requires Inv(s0) && IsRun(s0, steps, run) && CopyThenFinish(steps, t, i, j) && SafeUpTo(steps, run, j)
    ensures t in run[i].pending && t in run[j].pending && run[j].pending[t] == run[i].pending[t].(copied := true)
    ensures var f := run[i].pending[t];
            f.source in run[i].mem && f.target in run[j].mem && run[j].mem[f.target] == run[i].mem[f.source]
    decreases j
  {
    hide Inv, Unsafe;
    if j > i + 1 {
      CopyHeld(s0, steps, run, t, i, j - 1);
      RunInv(s0, steps, run, j);
      TargetUntouched(run[j - 1], steps[j - 1], t);
      hide Enabled, Apply;
    }
  }

  /** The end of a write fault changes what the faulting process sees exactly when it installs the copy
      and the source has been written since the copy step. */
  lemma FinishChangesViewIff(s0: State, steps: seq<Step>, run: seq<State>, t: nat, i: nat, j: nat)
    requires Inv(s0) && IsRun(s0, steps, run) && CopyThenFinish(steps, t, i, j) && SafeUpTo(steps, run, j)
    requires j < |steps| && steps[j].CowFinish? && steps[j].thread == t
    ensures t in run[i].pending
    ensures var f := run[i].pending[t];
            Sees(run[j + 1], f.slot) != Sees(run[j], f.slot) <==>
              && StillFaulting(run[j], f, steps[j].sameSlot) && f.source in run[j].refs && run[j].refs[f.source] > 1
              && f.source in run[j].mem && f.source in run[i].mem && run[j].mem[f.source] != run[i].mem[f.source]
  {
    hide Inv, Unsafe;
    CopyHeld(s0, steps, run, t, i, j);
    RunInv(s0, steps, run, j);
    var s, f := run[j], run[j].pending[t];
    TargetAside(s, t);
    if f.slot in s.ptes { MappedFrame(s, f.slot); }
  }

  lemma MappedFrame(s: State, k: Slot)
    requires Inv(s) && k in s.ptes
    ensures s.ptes[k].frame in s.refs && s.ptes[k].frame in s.mem
  {
    assert EntryOk(s, k);
  }

  /** The slot is mapped copy-on-write to `frame`. */
  predicate CowOf(s: State, k: Slot, frame: nat) {
    k in s.ptes && s.ptes[k].cow && s.ptes[k].frame == frame
  }

  /** As long as some entry is copy-on-write, nobody can write its frame. */
  lemma CowUnwritten(s: State, st: Step, k: Slot, frame: nat)
    requires Inv(s) && Enabled(s, st) && CowOf(s, k, frame)
    ensures frame in s.mem && frame in Apply(s, st).mem && Apply(s, st).mem[frame] == s.mem[frame]
  {
    hide Counted, PendingOk, FaultsOk;
    assert EntryOk(s, k) && k in Mappers(s.ptes, frame);
    if st.Write? { WriteElsewhere(s, st.slot, k); }
    if st.CowCopy? { TargetAside(s, st.thread); }
    hide FramesOk, Mappers;
  }

  lemma WriteElsewhere(s: State, j: Slot, k: Slot)
    requires FramesOk(s) && j in s.ptes && s.ptes[j].writable && k in s.ptes && s.ptes[k].cow
    ensures s.ptes[j].frame != s.ptes[k].frame
  {
    hide Counted, RegisteredOk;
    assert EntryOk(s, k) && EntryOk(s, j) && k in Mappers(s.ptes, s.ptes[k].frame);
  }

  /** What takes a copy-on-write entry away: taking the page over, unmapping it, changing its rights, or
      the end of another fault on it. */
  predicate Disturbs(s: State, st: Step, k: Slot) {
    match st
    case CowSole(slot) => slot == k
    case Unmap(slot) => slot == k
    case Protect(slot, _) => slot == k
    case CowFinish(t, _) => t in s.pending && s.pending[t].slot == k
    case _ => false
  }

  lemma CowStays(s: State, st: Step, k: Slot, frame: nat)
    requires Inv(s) && Enabled(s, st) && CowOf(s, k, frame) && !Disturbs(s, st, k)
    ensures CowOf(Apply(s, st), k, frame)
  {
    assert EntryOk(s, k) && !s.ptes[k].writable;
    hide Inv, EntryOk;
    if st.FaultFinish? || st.CowFinish? { StaysAtEnd(s, st, k); } else { Stays(s, st, k); }
    hide Apply, Enabled;
  }

  lemma StaysAtEnd(s: State, st: Step, k: Slot)
    requires Enabled(s, st) && k in s.ptes && !Disturbs(s, st, k) && (st.FaultFinish? || st.CowFinish?)
    ensures k in Apply(s, st).ptes && Apply(s, st).ptes[k] == s.ptes[k]
  {
    if st.CowFinish? { FinishedElsewhere(s, st.thread, st.sameSlot, k); } else { FaultedElsewhere(s, st.thread, st.table, k); }
    hide Faulted, Finished;
  }

  lemma Stays(s: State, st: Step, k: Slot)
    requires Enabled(s, st) && k in s.ptes && !s.ptes[k].writable && !Disturbs(s, st, k) && !st.FaultFinish? && !st.CowFinish?
    ensures k in Apply(s, st).ptes && Apply(s, st).ptes[k] == s.ptes[k]
  {
    hide Faulted, Finished, Dropped;
  }

  lemma FaultedElsewhere(s: State, t: nat, table: bool, k: Slot)
    requires t in s.faults && k in s.ptes
    ensures k in Faulted(s, t, table).ptes && Faulted(s, t, table).ptes[k] == s.ptes[k]
  {
  }

  lemma FinishedElsewhere(s: State, t: nat, sameSlot: bool, k: Slot)
    requires t in s.pending && s.pending[t].slot != k && k in s.ptes
    ensures k in Finished(s, t, sameSlot).ptes && Finished(s, t, sameSlot).ptes[k] == s.ptes[k]
  {
  }

  lemma {:induction false} SourceHeld(s0: State, steps: seq<Step>, run: seq<State>, k: Slot, frame: nat, i: nat, j: nat)
    requires Inv(s0) && IsRun(s0, steps, run) && i <= j && SafeUpTo(steps, run, j) && CowOf(run[i], k, frame)
    requires forall m :: i <= m < j ==> !Disturbs(run[m], steps[m], k)
    ensures CowOf(run[j], k, frame) && frame in run[i].mem && frame in run[j].mem && run[j].mem[frame] == run[i].mem[frame]
    decreases j
  {
    hide Inv, Unsafe;
    RunInv(s0, steps, run, j);
    if j > i {
      SourceHeld(s0, steps, run, k, frame, i, j - 1);
      CowStays(run[j - 1], steps[j - 1], k, frame);
      CowUnwritten(run[j - 1], steps[j - 1], k, frame);
    } else {
      MappedFrame(run[i], k);
    }
  }

  /** A write fault, from the step that takes the new frame to the one that ends it, leaves the faulting
      process its page, now writable, if nobody else takes over, unmaps, protects or finishes a fault on that page
      in between, whatever forks, faults, unmaps and writes happen elsewhere. */
  lemma FaultKeepsView(s0: State, steps: seq<Step>, run: seq<State>, t: nat, h: nat, i: nat, j: nat)
    requires Inv(s0) && IsRun(s0, steps, run) && SafeUpTo(steps, run, j)
    requires h < i && CopyThenFinish(steps, t, i, j) && j < |steps| && steps[j].CowFinish? && steps[j].thread == t
    requires steps[h].CowStart? && steps[h].thread == t
    requires forall m :: h < m < i ==> !(steps[m].CowFinish? && steps[m].thread == t)
    requires forall m :: h < m < j ==> !Disturbs(run[m], steps[m], steps[h].slot)
    ensures Sees(run[j + 1], steps[h].slot) == Sees(run[j], steps[h].slot) == Sees(run[h], steps[h].slot)
    ensures steps[j].sameSlot ==> steps[h].slot in run[j + 1].ptes && run[j + 1].ptes[steps[h].slot].writable
  {
    var k, frame := steps[h].slot, run[h].ptes[steps[h].slot].frame;
    StartHeld(s0, steps, run, t, h, i);
    SourceHeld(s0, steps, run, k, frame, h, i);
    SourceHeld(s0, steps, run, k, frame, h, j);
    FinishChangesViewIff(s0, steps, run, t, i, j);
    CopyHeld(s0, steps, run, t, i, j);
    hide IsRun, SafeUpTo, CopyThenFinish, Inv, Unsafe;
    if steps[j].sameSlot { FinishGrants(run[j], t); }
  }

  /** The end of a fault on a page still copy-on-write makes it writable. */
  lemma FinishGrants(s: State, t: nat)
    requires t in s.pending && CowOf(s, s.pending[t].slot, s.pending[t].source)
    ensures var k, s' := s.pending[t].slot, Finished(s, t, true); k in s'.ptes && s'.ptes[k].writable && !s'.ptes[k].cow
  {
  }

  /** The only step that ends a thread's fault is its own. */
  lemma PendingHeld(s: State, st: Step, t: nat)
    requires Enabled(s, st) && t in s.pending && !(st.CowFinish? && st.thread == t)
    ensures t in Apply(s, st).pending && Apply(s, st).pending[t] == s.pending[t].(copied := Apply(s, st).pending[t].copied)
  {
  }

  /** Until the copy, the fault is as it started. */
  lemma {:induction false} StartHeld(s0: State, steps: seq<Step>, run: seq<State>, t: nat, h: nat, i: nat)
    requires IsRun(s0, steps, run) && h < i <= |steps| && steps[h].CowStart? && steps[h].thread == t
    requires forall m :: h < m < i ==> !(steps[m].CowFinish? && steps[m].thread == t)
    ensures t in run[i].pending && steps[h].slot in run[h].ptes
    ensures var f := run[i].pending[t]; f.slot == steps[h].slot && f.source == run[h].ptes[steps[h].slot].frame
    decreases i
  {
    if i > h + 1 {
      StartHeld(s0, steps, run, t, h, i - 1);
      PendingHeld(run[i - 1], steps[i - 1], t);
    }
  }

  // ----- runs in which a property fails -----

  ghost predicate Leads(s: State, st: Step, s': State) {
    Enabled(s, st) && s' == Apply(s, st)
  }

  lemma ByParts(s: State, st: Step, s': State)
    requires Enabled(s, st)
    requires var r := Apply(s, st);
             && r.ptes == s'.ptes && r.refs == s'.refs && r.mem == s'.mem
             && r.pending == s'.pending && r.faults == s'.faults && r.registered == s'.registered
    ensures Leads(s, st, s')
  {
  }

  lemma LeadsRun(steps: seq<Step>, run: seq<State>)
    requires |run| == |steps| + 1 && run[0] == Initial
    requires forall i :: 0 <= i < |steps| ==> Leads(run[i], steps[i], run[i + 1])
    ensures IsRun(Initial, steps, run)
  {
    forall i | 0 <= i < |steps| ensures Enabled(run[i], steps[i]) && run[i + 1] == Apply(run[i], steps[i]) {
      assert Leads(run[i], steps[i], run[i + 1]);
      hide Enabled, Apply;
    }
  }

  /** Thread 7 copies a page shared with a child; the child goes away, another thread of the process
      takes the page over and writes it, and a second fork shares it again; then thread 7 finds the
      entry as it left it and installs the stale copy. */
  function StaleStep(i: nat): Step {
    var k := Slot(0, 0);
    match i
    case 0 => FaultNew(7, k, 1, true, false, false, [1])
    case 1 => FaultFinish(7, true)
    case 2 => ForkPte(k, 1)
    case 3 => CowStart(7, k, 2, [])
    case 4 => CowCopy(7)
    case 5 => Unmap(Slot(1, 0))
    case 6 => CowSole(k)
    case 7 => Write(k, [9])
    case 8 => ForkPte(k, 2)
    case _ => CowFinish(7, true)
  }

  function StaleState(i: nat): State {
    var k := Slot(0, 0);
    var sole, shared, f := Pte(1, true, false, false), Pte(1, false, true, false), Pending(k, 1, 2, true);
    match i
    case 0 => Initial
    case 1 => State(map[], map[1 := 0], map[1 := [1]], map[], map[7 := Fault(k, 1, true, false)], {})
    case 2 => State(map[k := sole], map[1 := 1], map[1 := [1]], map[], map[], {})
    case 3 => State(map[k := shared, Slot(1, 0) := shared], map[1 := 2], map[1 := [1]], map[], map[], {})
    case 4 =>
      State(map[k := shared, Slot(1, 0) := shared], map[1 := 2, 2 := 0], map[1 := [1], 2 := []], map[7 := f.(copied := false)], map[], {})
    case 5 => State(map[k := shared, Slot(1, 0) := shared], map[1 := 2, 2 := 0], map[1 := [1], 2 := [1]], map[7 := f], map[], {})
    case 6 => State(map[k := shared], map[1 := 1, 2 := 0], map[1 := [1], 2 := [1]], map[7 := f], map[], {})
    case 7 => State(map[k := sole], map[1 := 1, 2 := 0], map[1 := [1], 2 := [1]], map[7 := f], map[], {})
    case 8 => State(map[k := sole], map[1 := 1, 2 := 0], map[1 := [9], 2 := [1]], map[7 := f], map[], {})
    case 9 => State(map[k := shared, Slot(2, 0) := shared], map[1 := 2, 2 := 0], map[1 := [9], 2 := [1]], map[7 := f], map[], {})
    case _ =>
      State(map[k := Pte(2, true, false, false), Slot(2, 0) := shared], map[1 := 1, 2 := 1], map[1 := [9], 2 := [1]], map[], map[], {})
  }

  lemma StaleFork(i: nat)
    requires i < 3
    ensures Leads(StaleState(i), StaleStep(i), StaleState(i + 1))
  {
    ByParts(StaleState(i), StaleStep(i), StaleState(i + 1));
  }

  lemma StaleTaken(i: nat)
    requires 3 <= i < 5
    ensures Leads(StaleState(i), StaleStep(i), StaleState(i + 1))
  {
    ByParts(StaleState(i), StaleStep(i), StaleState(i + 1));
  }

  lemma StaleGone(i: nat)
    requires 5 <= i < 7
    ensures Leads(StaleState(i), StaleStep(i), StaleState(i + 1))
  {
    ByParts(StaleState(i), StaleStep(i), StaleState(i + 1));
  }

  lemma StaleWritten()
    ensures Leads(StaleState(7), StaleStep(7), StaleState(8))
  {
    ByParts(StaleState(7), StaleStep(7), StaleState(8));
  }

  lemma StaleShared()
    ensures Leads(StaleState(8), StaleStep(8), StaleState(9))
  {
    ByParts(StaleState(8), StaleStep(8), StaleState(9));
  }

  lemma StaleBack()
    ensures Leads(StaleState(9), StaleStep(9), StaleState(10))
  {
    ByParts(StaleState(9), StaleStep(9), StaleState(10));
  }

  /** The copied page can be stale, in a run without unsafe steps. */
  lemma StaleCopy() returns (steps: seq<Step>, run: seq<State>)
    ensures IsRun(Initial, steps, run) && |steps| == 10 && SafeUpTo(steps, run, 10)
    ensures CopyThenFinish(steps, 7, 4, 9) && steps[9] == CowFinish(7, true)
    ensures Sees(run[9], Slot(0, 0)) == Page([9]) && Sees(run[10], Slot(0, 0)) == Page([1])
  {
    hide Enabled, Apply;
    steps := seq(10, i requires 0 <= i < 10 => StaleStep(i));
    run := seq(11, i requires 0 <= i < 11 => StaleState(i));
    forall i | 0 <= i < 10 ensures Leads(run[i], steps[i], run[i + 1]) {
      if i < 3 { StaleFork(i); } else if i < 5 { StaleTaken(i); } else if i < 7 { StaleGone(i); }
      else if i == 7 { StaleWritten(); } else if i == 8 { StaleShared(); } else { StaleBack(); }
    }
    LeadsRun(steps, run);
  }

  /** Threads 1 and 2 fault on the same page of a shared mapping: thread 1 reads the file and registers
      the frame, thread 2 finds it registered; the later one frees it while it is mapped, and process 1
      gets it from the allocator. */
  function LostStep(i: nat): Step {
    var k := Slot(0, 0);
    match i
    case 0 => FaultNew(1, k, 5, true, true, true, [1])
    case 1 => FaultCached(2, k, 5, true)
    case 2 => FaultFinish(1, true)
    case 3 => FaultFinish(2, true)
    case _ => FaultNew(3, Slot(1, 0), 5, true, false, false, [2])
  }

  function LostState(i: nat): State {
    var k := Slot(0, 0);
    var f, e := Fault(k, 5, true, true), Pte(5, true, false, true);
    match i
    case 0 => Initial
    case 1 => State(map[], map[5 := 1], map[5 := [1]], map[], map[1 := f], {5})
    case 2 => State(map[], map[5 := 1], map[5 := [1]], map[], map[1 := f, 2 := f], {5})
    case 3 => State(map[k := e], map[5 := 2], map[5 := [1]], map[], map[2 := f], {5})
    case 4 => State(map[k := e], map[], map[5 := [1]], map[], map[], {5})
    case _ => State(map[k := e], map[5 := 0], map[5 := [2]], map[], map[3 := Fault(Slot(1, 0), 5, true, false)], {5})
  }

  lemma LostBegins(i: nat)
    requires i < 3
    ensures Leads(LostState(i), LostStep(i), LostState(i + 1))
  {
    ByParts(LostState(i), LostStep(i), LostState(i + 1));
  }

  lemma LostEnds(i: nat)
    requires 3 <= i < 5
    ensures Leads(LostState(i), LostStep(i), LostState(i + 1))
  {
    ByParts(LostState(i), LostStep(i), LostState(i + 1));
  }

  /** A fault that loses the race for a shared page frees a page in use: what a process sees changes
      when another one allocates a frame. */
  lemma LostFrees() returns (steps: seq<Step>, run: seq<State>)
    ensures IsRun(Initial, steps, run) && |steps| == 5 && SafeUpTo(steps, run, 3) && Unsafe(run[3], steps[3])
    ensures steps[4].FaultNew? && steps[4].slot.space == 1
    ensures Sees(run[4], Slot(0, 0)) == Page([1]) && Sees(run[5], Slot(0, 0)) == Page([2])
  {
    hide Enabled, Apply;
    steps := seq(5, i requires 0 <= i < 5 => LostStep(i));
    run := seq(6, i requires 0 <= i < 6 => LostState(i));
    forall i | 0 <= i < 5 ensures Leads(run[i], steps[i], run[i + 1]) {
      if i < 3 { LostBegins(i); } else { LostEnds(i); }
    }
    LeadsRun(steps, run);
  }

  /** Process 1 faults on a page process 0 has mapped and registered, and there is no frame for its page table. */
  function ShortStep(i: nat): Step {
    match i
    case 0 => LostStep(0)
    case 1 => FaultFinish(1, true)
    case 2 => FaultCached(2, Slot(1, 0), 5, true)
    case 3 => FaultFinish(2, false)
    case _ => LostStep(4)
  }

  function ShortState(i: nat): State {
    var e := Pte(5, true, false, true);
    match i
    case 2 => State(map[Slot(0, 0) := e], map[5 := 2], map[5 := [1]], map[], map[], {5})
    case 3 => State(map[Slot(0, 0) := e], map[5 := 2], map[5 := [1]], map[], map[2 := Fault(Slot(1, 0), 5, true, true)], {5})
    case _ => LostState(i)
  }

  lemma ShortBegins()
    ensures Leads(ShortState(0), ShortStep(0), ShortState(1)) && Leads(ShortState(1), ShortStep(1), ShortState(2))
  {
    LostBegins(0);
    ByParts(ShortState(1), ShortStep(1), ShortState(2));
  }

  lemma ShortEnds()
    ensures Leads(ShortState(2), ShortStep(2), ShortState(3)) && Leads(ShortState(3), ShortStep(3), ShortState(4))
  {
    ByParts(ShortState(2), ShortStep(2), ShortState(3));
    ByParts(ShortState(3), ShortStep(3), ShortState(4));
  }

  /** So does a fault that finds no table: it frees a page another process has mapped. */
  lemma ShortFrees() returns (steps: seq<Step>, run: seq<State>)
    ensures IsRun(Initial, steps, run) && |steps| == 5 && SafeUpTo(steps, run, 3) && Unsafe(run[3], steps[3])
    ensures steps[3] == FaultFinish(2, false) && Slot(1, 0) !in run[3].ptes && steps[4].FaultNew? && steps[4].slot.space == 1
    ensures Sees(run[4], Slot(0, 0)) == Page([1]) && Sees(run[5], Slot(0, 0)) == Page([2])
  {
    hide Enabled, Apply;
    steps := seq(5, i requires 0 <= i < 5 => ShortStep(i));
    run := seq(6, i requires 0 <= i < 6 => ShortState(i));
    forall i | 0 <= i < 5 ensures Leads(run[i], steps[i], run[i + 1]) {
      if i < 2 { ShortBegins(); } else if i < 4 { ShortEnds(); } else { LostEnds(4); }
    }
    LeadsRun(steps, run);
  }

  /** A fork, then write access restored to the copy-on-write page, then a write to it. */
  function LeakStep(i: nat): Step {
    if i < 3 then StaleStep(i) else if i == 3 then Protect(Slot(0, 0), true) else Write(Slot(0, 0), [9])
  }

  function LeakState(i: nat): State {
    var e := Pte(1, false, true, false);
    if i < 4 then StaleState(i)
    else State(map[Slot(0, 0) := e.(writable := true), Slot(1, 0) := e], map[1 := 2],
               if i == 4 then map[1 := [1]] else map[1 := [9]], map[], map[], {})
  }

  lemma LeakEnds(i: nat)
    requires 3 <= i < 5
    ensures Leads(LeakState(i), LeakStep(i), LeakState(i + 1))
  {
    ByParts(LeakState(i), LeakStep(i), LeakState(i + 1));
  }

  /** Write access restored to a copy-on-write page: the parent's private write shows in the child. */
  lemma ProtectLeaks() returns (steps: seq<Step>, run: seq<State>)
    ensures IsRun(Initial, steps, run) && |steps| == 5 && SafeUpTo(steps, run, 3) && Unsafe(run[3], steps[3])
    ensures steps[4] == Write(Slot(0, 0), [9]) && Slot(0, 0) in run[4].ptes && !run[4].ptes[Slot(0, 0)].shared
    ensures Sees(run[4], Slot(1, 0)) == Page([1]) && Sees(run[5], Slot(1, 0)) == Page([9])
  {
    hide Enabled, Apply;
    steps := seq(5, i requires 0 <= i < 5 => LeakStep(i));
    run := seq(6, i requires 0 <= i < 6 => LeakState(i));
    forall i | 0 <= i < 5 ensures Leads(run[i], steps[i], run[i + 1]) {
      if i < 3 { StaleFork(i); } else { LeakEnds(i); }
    }
    LeadsRun(steps, run);
  }
}
