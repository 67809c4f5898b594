/** The reference-count law of `llptr`, and why a reader never revives a dead object. */
module HazardConservation {
  import opened SeqSum
  import opened HazardMachine
  import opened HazardInvariant

  // ---------------------------------------------------------------- who refers to an object

  function One(q: nat, p: nat): nat { if q == p then 1 else 0 }

  /** References held by the arguments of a call in progress. */
  function ArgRefs(op: Op, p: nat): nat {
    match op
    case Load => 0
    case Cas(_, e, w) => One(e.ptr, p) + One(w.ptr, p)
  }

  /** References on `p` that a thread is responsible for at its current step. */
  function ThreadRefs(pc: PC, p: nat): int {
    match pc
    case Idle => 0
    case Reader(c, at, v, _, acq) =>
      (match at
       case Done => One(v.ptr, p)
       case Free => ArgRefs(c.op, p) + One(v.ptr, p)
       case Unpublish => ArgRefs(c.op, p) + (if v.ptr == p then acq else 0)
       case Decide => ArgRefs(c.op, p) + (if v.ptr == p then acq else 0)
       case _ => ArgRefs(c.op, p))
    case Writer(_, q, nrefs, kept, to, _, n) =>
      if q != p then 0 else if to.Budget? then nrefs + kept else SLOTS - n + kept
  }

  function ThreadWeight(p: nat): PC -> int { (pc: PC) => ThreadRefs(pc, p) }

  function CellWeight(p: nat): seq<Word> -> int {
    (history: seq<Word>) => if history == [] then 0 else One(history[|history| - 1].ptr, p)
  }

  function GrantWeight(p: nat): Slot -> int { (h: Slot) => One(h.grant, p) }

  /** All references on `p`: cells pointing at it, handles, uncollected grants, and calls in progress. */
  function Referents(s: State, p: nat): int {
    Sum(s.cells, CellWeight(p)) + s.handles[p] + Sum(s.slots, GrantWeight(p)) + Sum(s.threads, ThreadWeight(p))
  }

  ghost predicate Conserved(s: State) {
    forall p :: p != 0 ==> s.Count(p) == Referents(s, p)
  }

  lemma InitConserved(s: State)
    requires Init(s)
    ensures Conserved(s)
  {
    forall p | p != 0 ensures s.Count(p) == Referents(s, p) {
      SumZero(s.cells, CellWeight(p));
      SumZero(s.slots, GrantWeight(p));
      SumZero(s.threads, ThreadWeight(p));
    }
  }

  // ---------------------------------------------------------------- conservation

  /** References gained by the acting thread, by the slot and by the cell an effect writes. */
  function Gained(s: State, t: nat, e: Effect, p: nat): int
    requires s.WellFormed() && t < |s.threads| && EffectInRange(s, e)
  {
    ThreadRefs(e.pc, p) - ThreadRefs(s.threads[t], p)
    + (if e.slot.Some? then One(e.slot.value.h.grant, p) - One(s.slots[e.slot.value.i].grant, p) else 0)
    + (if e.cell.Some? then One(e.cell.value.w.ptr, p) - One(s.Cur(e.cell.value.o).ptr, p) else 0)
    + e.handles[p] - s.handles[p]
  }

  predicate EffectInRange(s: State, e: Effect)
    requires s.WellFormed()
  {
    (e.slot.Some? ==> e.slot.value.i < SLOTS) && (e.cell.Some? ==> e.cell.value.o < |s.cells|)
  }

  /** An effect acquires exactly the references it hands out. */
  ghost predicate Balanced(s: State, t: nat, e: Effect)
    requires s.WellFormed() && t < |s.threads| && EffectInRange(s, e)
  {
    forall p :: p != 0 ==> Gained(s, t, e, p) == Acquired(e, p)
  }

  function Acquired(e: Effect, p: nat): int { if p == e.obj then e.delta else 0 }

  lemma TakeRefs(handles: multiset<nat>, q: nat, p: nat)
    requires Owns(handles, q) && p != 0
    ensures Take(handles, q)[p] == handles[p] - One(q, p)
  {}

  /** References on `p` that a start action takes out of the handles in circulation. */
  function TakenRefs(a: Action, p: nat): int {
    match a
    case New(_, q) => 0 - One(q, p)
    case Copy(_, q) => 0 - One(q, p)
    case Drop(_, q) => One(q, p)
    case StartCas(_, _, _, e, w) => One(e.ptr, p) + One(w.ptr, p)
    case Swap(_, _, w, _) => One(w.ptr, p)
    case CasOnce(_, _, e, w, owned) => One(w.ptr, p) + (if owned then One(e.ptr, p) else 0)
    case _ => 0
  }

  lemma StartHandlesRefs(s: State, a: Action, p: nat)
    requires s.WellFormed() && Enabled(s, a) && !a.Step? && p != 0
    ensures StartHandles(s, a)[p] == s.handles[p] - TakenRefs(a, p)
  {
    match a
    case Swap(_, o, w, _) => TakeRefs(s.handles, w.ptr, p);
    case CasOnce(_, _, x, w, owned) =>
      TakeRefs(s.handles, w.ptr, p);
      if owned {
        TakeRefs(Take(s.handles, w.ptr), x.ptr, p);
      }
    case StartCas(_, o, _, x, w) =>
      TakeRefs(s.handles, x.ptr, p);
      TakeRefs(Take(s.handles, x.ptr), w.ptr, p);
    case _ =>
  }

  /** References on `p` that the acting thread is responsible for after a start action. */
  function StartedRefs(s: State, a: Action, p: nat): int
    requires s.WellFormed() && Enabled(s, a) && !a.Step?
  {
    match a
    case StartCas(_, _, _, e, w) => One(e.ptr, p) + One(w.ptr, p)
    case Swap(_, o, _, _) => One(s.Cur(o).ptr, p)
    case CasOnce(_, _, e, _, owned) => One(e.ptr, p) + (if owned then One(e.ptr, p) else 0)
    case _ => 0
  }

  lemma StartPCRefs(s: State, a: Action, p: nat)
    requires s.WellFormed() && Enabled(s, a) && !a.Step? && p != 0
    ensures ThreadRefs(StartPC(s, a), p) == StartedRefs(s, a, p)
  {}

  /** References on `p` that the cell gains by a start action. */
  function CellGain(s: State, a: Action, p: nat): int
    requires s.WellFormed() && Enabled(s, a) && !a.Step?
  {
    match a
    case Swap(_, o, w, _) => One(w.ptr, p) - One(s.Cur(o).ptr, p)
    case CasOnce(_, _, e, w, _) => One(w.ptr, p) - One(e.ptr, p)
    case _ => 0
  }

  lemma StartCellRefs(s: State, a: Action, p: nat)
    requires s.WellFormed() && Enabled(s, a) && !a.Step? && p != 0
    ensures var x := StartWrite(s, a);
      && (x.Some? ==> x.value.o < |s.cells|)
      && CellGain(s, a, p) == if x.Some? then One(x.value.w.ptr, p) - One(s.Cur(x.value.o).ptr, p) else 0
  {}

  lemma StartSums(s: State, a: Action, p: nat)
    requires s.WellFormed() && Enabled(s, a) && !a.Step? && p != 0
    ensures StartedRefs(s, a, p) + CellGain(s, a, p) - TakenRefs(a, p) == Acquired(StartEffect(s, a), p)
  {}

  lemma StartBalanced(s: State, a: Action, p: nat)
    requires CallsOk(s) && Enabled(s, a) && !a.Step? && p != 0
    ensures EffectInRange(s, StartEffect(s, a))
    ensures Gained(s, a.t, StartEffect(s, a), p) == Acquired(StartEffect(s, a), p)
  {
    StartCellRefs(s, a, p);
    StartHandlesRefs(s, a, p);
    StartPCRefs(s, a, p);
    StartSums(s, a, p);
    SumsBalance(s, a.t, StartEffect(s, a), p, StartedRefs(s, a, p), CellGain(s, a, p), TakenRefs(a, p));
  }

  /** The effect of an idle thread, given the references of its parts. */
  lemma SumsBalance(s: State, t: nat, e: Effect, p: nat, started: int, cell: int, taken: int)
    requires s.WellFormed() && t < |s.threads| && s.threads[t].Idle? && EffectInRange(s, e) && e.slot.None?
    requires ThreadRefs(e.pc, p) == started && e.handles[p] == s.handles[p] - taken
    requires cell == if e.cell.Some? then One(e.cell.value.w.ptr, p) - One(s.Cur(e.cell.value.o).ptr, p) else 0
    ensures Gained(s, t, e, p) == started + cell - taken
  {}

  lemma GiveArgsRefs(handles: multiset<nat>, op: Op, keepExpected: bool, p: nat)
    requires p != 0
    ensures GiveArgs(handles, op, keepExpected)[p] ==
            handles[p] + ArgRefs(op, p) - (if keepExpected && op.Cas? then One(op.expected.ptr, p) else 0)
  {}

  lemma ReaderBalanced(s: State, t: nat, slot: nat, spurious: bool, p: nat)
    requires CallsOk(s) && SlotsOk(s) && t < |s.threads| && slot < SLOTS && p != 0
    requires s.threads[t].Reader? && InRange(s, s.threads[t])
    requires s.threads[t].at.Check? || s.threads[t].at.Acquire? || s.threads[t].at.Unpublish? || s.threads[t].at.Decide?
    ensures var e := ReaderStep(s, t, slot, spurious);
      EffectInRange(s, e) && Gained(s, t, e, p) == Acquired(e, p)
  {
    var pc := s.threads[t];
    assert PCOk(s.cells, pc);
    assert HolderOk(s.slots[pc.s], t, pc);
  }

  lemma TryBalanced(s: State, t: nat, slot: nat, spurious: bool, p: nat)
    requires CallsOk(s) && t < |s.threads| && slot < SLOTS && p != 0
    requires s.threads[t].Reader? && InRange(s, s.threads[t]) && s.threads[t].at.Try?
    ensures var e := ReaderStep(s, t, slot, spurious);
      EffectInRange(s, e) && Gained(s, t, e, p) == Acquired(e, p)
  {
    GiveArgsRefs(s.handles, s.threads[t].c.op, false, p);
    GiveArgsRefs(s.handles, s.threads[t].c.op, true, p);
  }

  lemma CallBalanced(s: State, t: nat, slot: nat, spurious: bool, p: nat)
    requires CallsOk(s) && SlotsOk(s) && t < |s.threads| && slot < SLOTS && p != 0
    requires s.threads[t].Reader? && InRange(s, s.threads[t])
    requires var at := s.threads[t].at;
      at.Read? || at.Alloc? || at.Publish? || at.Free? || at.FreeRetry? || at.Done?
    ensures var e := ReaderStep(s, t, slot, spurious);
      EffectInRange(s, e) && Gained(s, t, e, p) == Acquired(e, p)
  {
    assert PCOk(s.cells, s.threads[t]);
    GiveArgsRefs(s.handles, s.threads[t].c.op, false, p);
  }

  lemma WriterBalanced(s: State, t: nat, spurious: bool, p: nat)
    requires CallsOk(s) && SlotsOk(s) && t < |s.threads| && p != 0
    requires s.threads[t].Writer? && InRange(s, s.threads[t])
    ensures var e := WriterStep(s, t, spurious);
      EffectInRange(s, e) && Gained(s, t, e, p) == Acquired(e, p)
  {
    var pc := s.threads[t];
    assert PCOk(s.cells, pc);
    if Marking(pc, pc.i) {
      assert SlotOk(s.threads, s.slots[pc.i], pc.i) && MarkerOk(s.slots[pc.i], t, pc);
      var holder := s.slots[pc.i].holder;
      if s.slots[pc.i].key != 0 {
        assert HolderOk(s.slots[pc.i], holder, s.threads[holder]);
      }
    }
  }

  lemma EffectBalanced(s: State, a: Action)
    requires CallsOk(s) && SlotsOk(s) && Enabled(s, a)
    ensures EffectInRange(s, EffectOf(s, a)) && Balanced(s, a.t, EffectOf(s, a))
  {
    var e := EffectOf(s, a);
    forall p | p != 0
      ensures EffectInRange(s, e) && Gained(s, a.t, e, p) == Acquired(e, p)
    {
      if !a.Step? {
        StartBalanced(s, a, p);
      } else if s.threads[a.t].Reader? {
        var at := s.threads[a.t].at;
        if at.Check? || at.Acquire? || at.Unpublish? || at.Decide? {
          ReaderBalanced(s, a.t, a.slot, a.spurious, p);
        } else if at.Try? {
          TryBalanced(s, a.t, a.slot, a.spurious, p);
        } else {
          CallBalanced(s, a.t, a.slot, a.spurious, p);
        }
      } else {
        WriterBalanced(s, a.t, a.spurious, p);
      }
    }
    assert 1 != 0 && EffectInRange(s, e);
  }

  /** A balanced effect keeps the reference-count law. */
  lemma BalancedConserves(s: State, t: nat, e: Effect)
    requires s.WellFormed() && t < |s.threads| && EffectOk(s, e) && Balanced(s, t, e) && Conserved(s)
    ensures Conserved(Commit(s, t, e))
  {
    var s' := Commit(s, t, e);
    forall p | p != 0 ensures s'.Count(p) == Referents(s', p) {
      SumUpdate(s.threads, t, e.pc, ThreadWeight(p));
      if e.slot.Some? {
        SumUpdate(s.slots, e.slot.value.i, e.slot.value.h, GrantWeight(p));
      }
      if e.cell.Some? {
        var o := e.cell.value.o;
        SumUpdate(s.cells, o, s.cells[o] + [e.cell.value.w], CellWeight(p));
      }
      assert Gained(s, t, e, p) == Referents(s', p) - Referents(s, p);
    }
  }

  // ---------------------------------------------------------------- counts cover what is held

  lemma WeightsNonNegative(s: State, p: nat)
    requires CallsOk(s)
    ensures forall t :: 0 <= t < |s.threads| ==> 0 <= ThreadWeight(p)(s.threads[t])
    ensures 0 <= Sum(s.cells, CellWeight(p)) && 0 <= Sum(s.slots, GrantWeight(p))
    ensures 0 <= Sum(s.threads, ThreadWeight(p))
  {
    forall t | 0 <= t < |s.threads| ensures 0 <= ThreadWeight(p)(s.threads[t]) {
      assert PCOk(s.cells, s.threads[t]);
    }
    SumNonNegative(s.cells, CellWeight(p));
    SumNonNegative(s.slots, GrantWeight(p));
    SumNonNegative(s.threads, ThreadWeight(p));
  }

  /** The count of an object covers the references any one thread, slot or cell holds on it, and the handles. */
  lemma CountCovers(s: State, p: nat)
    requires CallsOk(s) && Conserved(s) && p != 0
    ensures forall t :: 0 <= t < |s.threads| ==> ThreadRefs(s.threads[t], p) <= s.Count(p)
    ensures forall i :: 0 <= i < |s.slots| ==> One(s.slots[i].grant, p) <= s.Count(p)
    ensures forall o :: 0 <= o < |s.cells| ==> One(s.Cur(o).ptr, p) <= s.Count(p)
    ensures s.handles[p] <= s.Count(p)
  {
    WeightsNonNegative(s, p);
    forall t | 0 <= t < |s.threads| ensures ThreadRefs(s.threads[t], p) <= s.Count(p) {
      SumDominates(s.threads, t, ThreadWeight(p));
    }
    forall i | 0 <= i < |s.slots| ensures One(s.slots[i].grant, p) <= s.Count(p) {
      SumDominates(s.slots, i, GrantWeight(p));
    }
    forall o | 0 <= o < |s.cells| ensures One(s.Cur(o).ptr, p) <= s.Count(p) {
      SumDominates(s.cells, o, CellWeight(p));
    }
  }

  /** A balanced release takes only references its thread or the handles account for. */
  lemma BalancedIsCovered(s: State, t: nat, e: Effect)
    requires CallsOk(s) && Conserved(s) && t < |s.threads| && EffectInRange(s, e)
    requires e.delta < 0 ==> e.obj != 0 && Releasable(s, t, e)
    ensures EffectOk(s, e)
  {
    if e.delta < 0 {
      CountCovers(s, e.obj);
    }
  }

  /** The released references are the acting thread's own, or one of the handles. */
  predicate Releasable(s: State, t: nat, e: Effect)
    requires t < |s.threads|
  {
    -e.delta <= ThreadRefs(s.threads[t], e.obj) || -e.delta <= s.handles[e.obj]
  }

  lemma StepReleasable(s: State, a: Action)
    requires CallsOk(s) && Enabled(s, a)
    ensures var e := EffectOf(s, a); e.delta < 0 ==> e.obj != 0 && Releasable(s, a.t, e)
  {
    assert PCOk(s.cells, s.threads[a.t]);
  }

  // ---------------------------------------------------------------- no resurrection

  /** A writer that swapped `p` out of cell `o` and has yet to deal with slot `i`. */
  predicate Pending(pc: PC, o: nat, p: nat, i: nat) {
    && pc.Writer? && pc.o == o && pc.p == p
    && (pc.to.Budget? || pc.i < i || (pc.i == i && !pc.to.MarkClear?))
  }

  /** Why the object a reader is about to acquire is alive. */
  ghost predicate Protected(s: State, pc: PC)
    requires s.WellFormed() && pc.Reader? && ReaderOk(s.cells, pc)
  {
    || s.slots[pc.s].grant == pc.v.ptr
    || s.Cur(pc.c.o).ptr == pc.v.ptr
    || exists w :: 0 <= w < |s.threads| && Pending(s.threads[w], pc.c.o, pc.v.ptr, pc.s)
  }

  ghost predicate AllProtected(s: State)
    requires CallsOk(s)
  {
    forall t :: 0 <= t < |s.threads| && s.threads[t].Reader? && s.threads[t].at.Acquire? ==>
      PCOk(s.cells, s.threads[t]) && Protected(s, s.threads[t])
  }

  /** Whoever swaps the pointer out of the cell becomes a pending writer for it. */
  lemma SwapLeavesPendingWriter(s: State, a: Action, o: nat)
    requires CallsOk(s) && Enabled(s, a) && o < |s.cells| && s.Cur(o).ptr != 0
    requires var e := EffectOf(s, a); e.cell.Some? && e.cell.value.o == o && e.cell.value.w.ptr != s.Cur(o).ptr
    ensures forall i :: Pending(EffectOf(s, a).pc, o, s.Cur(o).ptr, i)
  {}

  /** A pending writer stays pending for a published slot until it has left a grant there. */
  lemma PendingStep(s: State, a: Action, t: nat)
    requires CallsOk(s) && SlotsOk(s) && Enabled(s, a) && t < |s.threads| && t != a.t
    requires s.threads[t].Reader? && s.threads[t].at.Acquire?
    requires var pc := s.threads[t]; Pending(s.threads[a.t], pc.c.o, pc.v.ptr, pc.s)
    ensures var pc, e := s.threads[t], EffectOf(s, a);
      pc.s < SLOTS && (SlotAfter(s, e, pc.s).grant == pc.v.ptr || Pending(e.pc, pc.c.o, pc.v.ptr, pc.s))
  {
    var pc := s.threads[t];
    assert PCOk(s.cells, pc);
    assert PCOk(s.cells, s.threads[a.t]);
    assert HolderOk(s.slots[pc.s], t, pc);
  }

  /** A grant stays in its slot until the hazard's own thread collects it. */
  lemma GrantStays(s: State, a: Action, t: nat)
    requires CallsOk(s) && SlotsOk(s) && Enabled(s, a) && t < |s.threads| && t != a.t
    requires Published(s.threads[t]) && s.threads[t].s < SLOTS
    requires s.slots[s.threads[t].s].grant == s.threads[t].v.ptr
    ensures SlotAfter(s, EffectOf(s, a), s.threads[t].s).grant == s.threads[t].v.ptr
  {
    var pc := s.threads[t];
    assert PCOk(s.cells, pc);
    assert PCOk(s.cells, s.threads[a.t]);
    assert HolderOk(s.slots[pc.s], t, pc);
    if s.threads[a.t].Reader? && Holds(s.threads[a.t], pc.s) {
      assert false;
    }
  }

  /**
   * What a step must leave behind for a reader that is about to acquire: the grant in its slot,
   * its pointer in the cell, or a pending writer.
   */
  ghost predicate Shields(s: State, t: nat, e: Effect, pc: PC)
    requires s.WellFormed() && t < |s.threads| && EffectInRange(s, e) && pc.Reader? && ReaderOk(s.cells, pc)
  {
    || SlotAfter(s, e, pc.s).grant == pc.v.ptr
    || (if e.cell.Some? && e.cell.value.o == pc.c.o then e.cell.value.w else s.Cur(pc.c.o)).ptr == pc.v.ptr
    || exists w :: 0 <= w < |s.threads| &&
         Pending(if w == t then e.pc else s.threads[w], pc.c.o, pc.v.ptr, pc.s)
  }

  lemma BystanderOfCell(s: State, a: Action, t: nat)
    requires CallsOk(s) && SlotsOk(s) && Enabled(s, a) && EffectInRange(s, EffectOf(s, a))
    requires t < |s.threads| && t != a.t && s.threads[t].Reader? && s.threads[t].at.Acquire?
    requires PCOk(s.cells, s.threads[t])
    requires s.Cur(s.threads[t].c.o).ptr == s.threads[t].v.ptr
    ensures Shields(s, a.t, EffectOf(s, a), s.threads[t])
  {
    var pc, e := s.threads[t], EffectOf(s, a);
    if e.cell.Some? && e.cell.value.o == pc.c.o && e.cell.value.w.ptr != pc.v.ptr {
      SwapLeavesPendingWriter(s, a, pc.c.o);
    }
  }

  lemma BystanderOfWriter(s: State, a: Action, t: nat, w: nat)
    requires CallsOk(s) && SlotsOk(s) && Enabled(s, a) && EffectInRange(s, EffectOf(s, a))
    requires t < |s.threads| && t != a.t && s.threads[t].Reader? && s.threads[t].at.Acquire?
    requires PCOk(s.cells, s.threads[t])
    requires w < |s.threads| && var pc := s.threads[t]; Pending(s.threads[w], pc.c.o, pc.v.ptr, pc.s)
    ensures Shields(s, a.t, EffectOf(s, a), s.threads[t])
  {
    if w == a.t {
      PendingStep(s, a, t);
    }
  }

  /** A reader that is not acting stays protected. */
  lemma BystanderShielded(s: State, a: Action, t: nat)
    requires CallsOk(s) && SlotsOk(s) && Enabled(s, a) && EffectInRange(s, EffectOf(s, a))
    requires t < |s.threads| && t != a.t && s.threads[t].Reader? && s.threads[t].at.Acquire?
    requires PCOk(s.cells, s.threads[t]) && Protected(s, s.threads[t])
    ensures Shields(s, a.t, EffectOf(s, a), s.threads[t])
  {
    var pc := s.threads[t];
    if s.slots[pc.s].grant == pc.v.ptr {
      GrantStays(s, a, t);
    } else if s.Cur(pc.c.o).ptr == pc.v.ptr {
      BystanderOfCell(s, a, t);
    } else {
      var w :| 0 <= w < |s.threads| && Pending(s.threads[w], pc.c.o, pc.v.ptr, pc.s);
      BystanderOfWriter(s, a, t, w);
    }
  }

  /** A reader reaches its acquire only by finding its pointer still in the cell. */
  lemma CheckedIsShielded(s: State, t: nat, slot: nat, spurious: bool)
    requires CallsOk(s) && t < |s.threads| && slot < SLOTS
    requires s.threads[t].Reader? && InRange(s, s.threads[t])
    requires ReaderStep(s, t, slot, spurious).pc.Reader? && ReaderStep(s, t, slot, spurious).pc.at.Acquire?
    ensures var e := ReaderStep(s, t, slot, spurious);
      e.cell.None? && e.pc.c.o < |s.cells| && s.Cur(e.pc.c.o).ptr == e.pc.v.ptr
  {}

  lemma ActorShielded(s: State, a: Action)
    requires CallsOk(s) && Enabled(s, a) && EffectInRange(s, EffectOf(s, a))
    requires var pc := EffectOf(s, a).pc; pc.Reader? && pc.at.Acquire? && ReaderOk(s.cells, pc)
    ensures Shields(s, a.t, EffectOf(s, a), EffectOf(s, a).pc)
  {
    if a.Step? {
      if s.threads[a.t].Reader? {
        CheckedIsShielded(s, a.t, a.slot, a.spurious);
      }
    }
  }

  /** Shielding all readers about to acquire keeps them protected. */
  lemma ShieldsProtects(s: State, t: nat, e: Effect, pc: PC)
    requires CallsOk(s) && t < |s.threads| && EffectOk(s, e) && pc.Reader? && ReaderOk(s.cells, pc)
    requires Shields(s, t, e, pc)
    ensures var s' := Commit(s, t, e); s'.WellFormed() && ReaderOk(s'.cells, pc) && Protected(s', pc)
  {
    var s' := Commit(s, t, e);
    PCOkGrows(s.cells, s'.cells, pc);
    if SlotAfter(s, e, pc.s).grant == pc.v.ptr {
      assert s'.slots[pc.s] == SlotAfter(s, e, pc.s);
    } else if exists w :: 0 <= w < |s.threads| &&
                Pending(if w == t then e.pc else s.threads[w], pc.c.o, pc.v.ptr, pc.s) {
      var w :| 0 <= w < |s.threads| && Pending(if w == t then e.pc else s.threads[w], pc.c.o, pc.v.ptr, pc.s);
      assert Pending(s'.threads[w], pc.c.o, pc.v.ptr, pc.s);
    }
  }

  /** A protected object has at least one reference. */
  lemma ProtectedIsAlive(s: State, t: nat)
    requires CallsOk(s) && SlotsOk(s) && Conserved(s) && AllProtected(s)
    requires t < |s.threads| && s.threads[t].Reader? && s.threads[t].at.Acquire?
    ensures 1 <= s.Count(s.threads[t].v.ptr)
  {
    var pc := s.threads[t];
    assert PCOk(s.cells, pc) && Protected(s, pc);
    CountCovers(s, pc.v.ptr);
    if s.slots[pc.s].grant != pc.v.ptr && s.Cur(pc.c.o).ptr != pc.v.ptr {
      var w :| 0 <= w < |s.threads| && Pending(s.threads[w], pc.c.o, pc.v.ptr, pc.s);
      assert PCOk(s.cells, s.threads[w]);
    }
  }

  // ---------------------------------------------------------------- the invariant of every run

  ghost predicate Inv(s: State) {
    CallsOk(s) && SlotsOk(s) && Conserved(s) && AllProtected(s)
  }

  lemma InvInit(s: State)
    requires Init(s)
    ensures Inv(s)
  {
    InitOk(s);
    InitConserved(s);
  }

  /** What the invariant of the next state needs to know about the effect of a step. */
  ghost predicate GoodEffect(s: State, t: nat, e: Effect) {
    && CallsOk(s) && t < |s.threads|
    && EffectInRange(s, e) && Balanced(s, t, e) && PCOk(s.cells, e.pc)
    && (e.delta < 0 ==> e.obj != 0 && Releasable(s, t, e))
    && |s.slots| == SLOTS
    && (forall i :: 0 <= i < SLOTS ==> SlotAgrees(s.threads[t := e.pc], SlotAfter(s, e, i), i))
    && (forall u :: 0 <= u < |s.threads| ==>
          var pc := if u == t then e.pc else s.threads[u];
          pc.Reader? && pc.at.Acquire? ==> PCOk(s.cells, pc) && Shields(s, t, e, pc))
  }

  lemma StepIsGood(s: State, a: Action)
    requires Inv(s) && Enabled(s, a)
    ensures GoodEffect(s, a.t, EffectOf(s, a))
  {
    var e := EffectOf(s, a);
    ActorOk(s, a);
    EffectBalanced(s, a);
    StepReleasable(s, a);
    forall i | 0 <= i < SLOTS ensures SlotAgrees(s.threads[a.t := e.pc], SlotAfter(s, e, i), i) {
      SlotOfActor(s, a, i);
    }
    forall u | 0 <= u < |s.threads|
      ensures var pc := if u == a.t then e.pc else s.threads[u];
        pc.Reader? && pc.at.Acquire? ==> PCOk(s.cells, pc) && Shields(s, a.t, e, pc)
    {
      var pc := if u == a.t then e.pc else s.threads[u];
      if pc.Reader? && pc.at.Acquire? {
        if u == a.t {
          ActorShielded(s, a);
        } else {
          BystanderShielded(s, a, u);
        }
      }
    }
  }

  lemma GoodEffectKeepsInv(s: State, t: nat, e: Effect)
    requires Inv(s) && GoodEffect(s, t, e)
    ensures EffectOk(s, e) && Inv(Commit(s, t, e))
  {
    BalancedIsCovered(s, t, e);
    var s' := Commit(s, t, e);
    CommitCallsOk(s, t, e);
    CommitSlotsOk(s, t, e);
    BalancedConserves(s, t, e);
    forall u | 0 <= u < |s'.threads| && s'.threads[u].Reader? && s'.threads[u].at.Acquire?
      ensures PCOk(s'.cells, s'.threads[u]) && Protected(s', s'.threads[u])
    {
      ShieldsProtects(s, t, e, s'.threads[u]);
    }
  }

  /** Every enabled step is possible, releases nothing it does not have, and keeps the invariant. */
  lemma InvStep(s: State, a: Action)
    requires Inv(s) && Enabled(s, a)
    ensures EffectOk(s, EffectOf(s, a)) && Inv(Commit(s, a.t, EffectOf(s, a)))
  {
    StepIsGood(s, a);
    GoodEffectKeepsInv(s, a.t, EffectOf(s, a));
  }

  lemma InvNext(s: State, s': State)
    requires Inv(s) && Next(s, s')
    ensures Inv(s')
  {
    var a :| Enabled(s, a) && EffectOk(s, EffectOf(s, a)) && s' == Commit(s, a.t, EffectOf(s, a));
    InvStep(s, a);
  }

  lemma InvStepAt(b: seq<State>, k: nat)
    requires 0 < k < |b| && StepAt(b, k - 1) && Inv(b[k - 1])
    ensures Inv(b[k])
  {
    InvNext(b[k - 1], b[k]);
  }

  /** Every state of every run satisfies the invariant. */
  lemma {:induction false} InvAlways(b: seq<State>, k: nat)
    requires Behavior(b) && k < |b|
    ensures Inv(b[k])
  {
    if k == 0 {
      InvInit(b[0]);
    } else {
      InvAlways(b, k - 1);
      InvStepAt(b, k);
    }
  }
}
