/** Inductive invariants of the hazard protocol: well-formed calls and the slot discipline. */
module HazardInvariant {
  import opened HazardMachine

  /** The thread's hazard object is alive and sits in slot `i`. */
  predicate Holds(pc: PC, i: nat) {
    pc.Reader? && pc.s == i && !pc.at.Read? && !pc.at.Try? && !pc.at.Alloc? && !pc.at.Done?
  }

  /** The thread's publication is visible: between the two exchanges of `basic_hazard::do_hazard`. */
  predicate Published(pc: PC) {
    pc.Reader? && (pc.at.Check? || pc.at.Acquire? || pc.at.Unpublish?)
  }

  /** The thread is inside `mark` with the flag bit of slot `i` set. */
  predicate Marking(pc: PC, i: nat) {
    pc.Writer? && pc.i == i && (pc.to.MarkValue? || pc.to.MarkClear?)
  }

  // ---------------------------------------------------------------- well-formed program counters

  /** `w` was the content of cell `c.o` at some moment since the call began. */
  predicate Observed(cells: seq<seq<Word>>, c: Call, w: Word)
    requires c.o < |cells|
  {
    exists k :: c.t0 <= k < |cells[c.o]| && cells[c.o][k] == w
  }

  predicate CallOk(cells: seq<seq<Word>>, c: Call) {
    c.o < |cells| && c.t0 < |cells[c.o]|
  }

  /** A word a call may report: seen during the call and, for a failed strong exchange, different from `expected`. */
  predicate Reportable(cells: seq<seq<Word>>, c: Call, v: Word)
    requires c.o < |cells|
  {
    Observed(cells, c, v) && (c.op.Cas? && !c.op.weak ==> v != c.op.expected)
  }

  predicate ReaderOk(cells: seq<seq<Word>>, pc: PC)
    requires pc.Reader?
  {
    && CallOk(cells, pc.c) && pc.s < SLOTS && pc.acq <= 2
    && match pc.at
       case Read => pc.c.op.Load?
       case Try => pc.c.op.Cas?
       case FreeRetry => pc.c.op.Cas?
       case Free => Reportable(cells, pc.c, pc.v)
       case Done => Reportable(cells, pc.c, pc.v)
       case Unpublish => Reportable(cells, pc.c, pc.v) && pc.v.ptr != 0 && pc.acq <= 1
       case _ => Reportable(cells, pc.c, pc.v) && pc.v.ptr != 0
  }

  predicate WriterOk(cells: seq<seq<Word>>, pc: PC)
    requires pc.Writer?
  {
    && pc.o < |cells| && pc.p != 0 && pc.kept <= 1 && pc.nrefs <= 2 && 1 <= pc.nrefs + pc.kept
    && match pc.to
       case Budget => pc.n == pc.i == 0
       case MarkRead => pc.n <= pc.i <= SLOTS
       case MarkClear => pc.n <= pc.i + 1 && pc.i < SLOTS
       case _ => pc.n <= pc.i < SLOTS
  }

  predicate PCOk(cells: seq<seq<Word>>, pc: PC) {
    (pc.Reader? ==> ReaderOk(cells, pc)) && (pc.Writer? ==> WriterOk(cells, pc))
  }

  ghost predicate CallsOk(s: State) {
    && s.WellFormed()
    && forall t :: 0 <= t < |s.threads| ==> PCOk(s.cells, s.threads[t])
  }

  // ---------------------------------------------------------------- slot discipline

  /** What a live hazard of thread `t` in slot `i` sees: its own key, and either its publication or a grant for it. */
  predicate HolderOk(h: Slot, t: nat, pc: PC)
    requires pc.Reader?
  {
    && h.key == Key(pc.c.o)
    && h.holder == t
    && (if Published(pc)
        then (h.value == pc.v.ptr && h.grant == 0) || (h.value == 0 && h.grant == pc.v.ptr)
        else h.value == 0 && h.grant == 0)
  }

  /** A slot that is not in use is empty; a slot in use belongs to the live hazard of its holder. */
  predicate SlotOk(threads: seq<PC>, h: Slot, i: nat) {
    && (h.key == 0 ==> h.value == 0 && h.grant == 0)
    && (h.key != 0 ==> h.holder < |threads| && Holds(threads[h.holder], i))
    && (h.flag ==> h.marker < |threads| && Marking(threads[h.marker], i))
  }

  /** A thread inside `mark` owns the flag bit, and the slot is its owner's or has been given up since. */
  predicate MarkerOk(h: Slot, t: nat, pc: PC)
    requires pc.Writer?
  {
    h.flag && h.marker == t && (h.key == 0 || h.key == Key(pc.o))
  }

  ghost predicate SlotsOk(s: State) {
    && |s.slots| == SLOTS
    && (forall i :: 0 <= i < SLOTS ==> SlotOk(s.threads, s.slots[i], i))
    && (forall t, i :: 0 <= t < |s.threads| && 0 <= i < SLOTS && Holds(s.threads[t], i) ==>
          HolderOk(s.slots[i], t, s.threads[t]))
    && (forall t, i :: 0 <= t < |s.threads| && 0 <= i < SLOTS && Marking(s.threads[t], i) ==>
          MarkerOk(s.slots[i], t, s.threads[t]))
  }

  lemma InitOk(s: State)
    requires Init(s)
    ensures CallsOk(s) && SlotsOk(s)
  {}

  // ---------------------------------------------------------------- preservation: calls

  /** Histories only grow, so what was observed stays observed. */
  lemma PCOkGrows(cells: seq<seq<Word>>, cells': seq<seq<Word>>, pc: PC)
    requires |cells'| == |cells| && forall o :: 0 <= o < |cells| ==> cells[o] <= cells'[o]
    requires PCOk(cells, pc)
    ensures PCOk(cells', pc)
  {
    if pc.Reader? && Observed(cells, pc.c, pc.v) {
      var k :| pc.c.t0 <= k < |cells[pc.c.o]| && cells[pc.c.o][k] == pc.v;
      assert cells'[pc.c.o][k] == pc.v;
    }
  }

  /** The acting thread's next program counter is well-formed already before its write takes effect. */
  lemma ReaderActorOk(s: State, t: nat, slot: nat, spurious: bool)
    requires CallsOk(s) && t < |s.threads| && slot < SLOTS
    requires s.threads[t].Reader? && InRange(s, s.threads[t])
    ensures PCOk(s.cells, ReaderStep(s, t, slot, spurious).pc)
  {
    assert PCOk(s.cells, s.threads[t]);
    var c := s.threads[t].c;
    assert s.cells[c.o][|s.cells[c.o]| - 1] == s.Cur(c.o);
    assert Observed(s.cells, c, s.Cur(c.o));
  }

  lemma WriterActorOk(s: State, t: nat, spurious: bool)
    requires CallsOk(s) && t < |s.threads|
    requires s.threads[t].Writer? && InRange(s, s.threads[t])
    ensures PCOk(s.cells, WriterStep(s, t, spurious).pc)
  {
    assert PCOk(s.cells, s.threads[t]);
  }

  lemma ActorOk(s: State, a: Action)
    requires CallsOk(s) && Enabled(s, a)
    ensures PCOk(s.cells, EffectOf(s, a).pc)
  {
    if !a.Step? {
      assert PCOk(s.cells, EffectOf(s, a).pc);
    } else if s.threads[a.t].Reader? {
      ReaderActorOk(s, a.t, a.slot, a.spurious);
    } else {
      WriterActorOk(s, a.t, a.spurious);
    }
  }

  lemma CommitCallsOk(s: State, t: nat, e: Effect)
    requires CallsOk(s) && t < |s.threads| && EffectOk(s, e) && PCOk(s.cells, e.pc)
    ensures CallsOk(Commit(s, t, e))
  {
    var s' := Commit(s, t, e);
    forall u | 0 <= u < |s'.threads|
      ensures PCOk(s'.cells, s'.threads[u])
    {
      PCOkGrows(s.cells, s'.cells, if u == t then e.pc else s.threads[u]);
    }
  }

  // ---------------------------------------------------------------- preservation: slots

  /** The slot discipline, restricted to one slot. */
  ghost predicate SlotAgrees(threads: seq<PC>, h: Slot, i: nat) {
    && SlotOk(threads, h, i)
    && (forall t :: 0 <= t < |threads| && Holds(threads[t], i) ==> HolderOk(h, t, threads[t]))
    && (forall t :: 0 <= t < |threads| && Marking(threads[t], i) ==> MarkerOk(h, t, threads[t]))
  }

  /** Slot `i` after effect `e` of a step of thread `t`. */
  function SlotAfter(s: State, e: Effect, i: nat): Slot
    requires |s.slots| == SLOTS && i < SLOTS
  {
    if e.slot.Some? && e.slot.value.i == i then e.slot.value.h else s.slots[i]
  }

  /** A thread that neither holds nor marks a slot, before or after, does not disturb it. */
  lemma SlotUndisturbed(threads: seq<PC>, h: Slot, i: nat, t: nat, pc: PC)
    requires t < |threads| && SlotAgrees(threads, h, i)
    requires !Holds(threads[t], i) && !Holds(pc, i) && !Marking(threads[t], i) && !Marking(pc, i)
    ensures SlotAgrees(threads[t := pc], h, i)
  {}

  /** Claiming a slot: it was free, so no other hazard was in it. */
  lemma SlotOfClaim(s: State, t: nat, slot: nat, spurious: bool, i: nat)
    requires CallsOk(s) && SlotsOk(s) && t < |s.threads| && slot < SLOTS && i < SLOTS
    requires s.threads[t].Reader? && InRange(s, s.threads[t]) && !Holds(s.threads[t], s.threads[t].s)
    ensures var e := ReaderStep(s, t, slot, spurious);
      SlotAgrees(s.threads[t := e.pc], SlotAfter(s, e, i), i)
  {
    assert SlotAgrees(s.threads, s.slots[i], i);
    var e := ReaderStep(s, t, slot, spurious);
    if !Holds(e.pc, i) {
      SlotUndisturbed(s.threads, s.slots[i], i, t, e.pc);
    }
  }

  /** A live hazard only touches its own slot, and leaves it as the next stage expects it. */
  lemma SlotOfHolder(s: State, t: nat, slot: nat, spurious: bool, i: nat)
    requires CallsOk(s) && SlotsOk(s) && t < |s.threads| && slot < SLOTS && i < SLOTS
    requires s.threads[t].Reader? && InRange(s, s.threads[t]) && Holds(s.threads[t], s.threads[t].s)
    ensures var e := ReaderStep(s, t, slot, spurious);
      SlotAgrees(s.threads[t := e.pc], SlotAfter(s, e, i), i)
  {
    var pc := s.threads[t];
    assert PCOk(s.cells, pc);
    assert SlotAgrees(s.threads, s.slots[i], i);
    var e := ReaderStep(s, t, slot, spurious);
    if i != pc.s {
      SlotUndisturbed(s.threads, s.slots[i], i, t, e.pc);
    }
  }

  lemma SlotOfReader(s: State, t: nat, slot: nat, spurious: bool, i: nat)
    requires CallsOk(s) && SlotsOk(s) && t < |s.threads| && slot < SLOTS && i < SLOTS
    requires s.threads[t].Reader? && InRange(s, s.threads[t])
    ensures var e := ReaderStep(s, t, slot, spurious);
      SlotAgrees(s.threads[t := e.pc], SlotAfter(s, e, i), i)
  {
    if Holds(s.threads[t], s.threads[t].s) {
      SlotOfHolder(s, t, slot, spurious, i);
    } else {
      SlotOfClaim(s, t, slot, spurious, i);
    }
  }

  lemma SlotOfWriter(s: State, t: nat, spurious: bool, i: nat)
    requires CallsOk(s) && SlotsOk(s) && t < |s.threads| && i < SLOTS
    requires s.threads[t].Writer? && InRange(s, s.threads[t])
    ensures var e := WriterStep(s, t, spurious);
      SlotAgrees(s.threads[t := e.pc], SlotAfter(s, e, i), i)
  {
    var pc := s.threads[t];
    assert PCOk(s.cells, pc);
    assert SlotAgrees(s.threads, s.slots[i], i);
    var e := WriterStep(s, t, spurious);
    if i != pc.i || pc.to.Budget? || pc.to.MarkRead? {
      SlotUndisturbed(s.threads, s.slots[i], i, t, e.pc);
    } else if pc.to.MarkOwner? {
      if e.slot.None? {
        SlotUndisturbed(s.threads, s.slots[i], i, t, e.pc);
      }
    }
  }

  /** Outside `Step` the acting thread has no hazard and no flag bit, before or after. */
  lemma SlotOfStart(s: State, a: Action, i: nat)
    requires CallsOk(s) && SlotsOk(s) && Enabled(s, a) && !a.Step? && i < SLOTS
    ensures var e := EffectOf(s, a);
      e.slot.None? && SlotAgrees(s.threads[a.t := e.pc], s.slots[i], i)
  {
    var e := EffectOf(s, a);
    assert e.slot.None? && !Holds(e.pc, i) && !Marking(e.pc, i);
    assert SlotAgrees(s.threads, s.slots[i], i);
    SlotUndisturbed(s.threads, s.slots[i], i, a.t, e.pc);
  }

  lemma SlotOfActor(s: State, a: Action, i: nat)
    requires CallsOk(s) && SlotsOk(s) && Enabled(s, a) && i < SLOTS
    ensures var e := EffectOf(s, a); SlotAgrees(s.threads[a.t := e.pc], SlotAfter(s, e, i), i)
  {
    if !a.Step? {
      SlotOfStart(s, a, i);
    } else if s.threads[a.t].Reader? {
      SlotOfReader(s, a.t, a.slot, a.spurious, i);
    } else {
      SlotOfWriter(s, a.t, a.spurious, i);
    }
  }

  lemma CommitSlotsOk(s: State, t: nat, e: Effect)
    requires CallsOk(s) && t < |s.threads| && EffectOk(s, e)
    requires forall i :: 0 <= i < SLOTS ==> SlotAgrees(s.threads[t := e.pc], SlotAfter(s, e, i), i)
    ensures SlotsOk(Commit(s, t, e))
  {
    var s' := Commit(s, t, e);
    forall i | 0 <= i < SLOTS
      ensures SlotAgrees(s'.threads, s'.slots[i], i)
    {
      assert s'.slots[i] == SlotAfter(s, e, i);
    }
  }
}
