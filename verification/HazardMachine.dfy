/**
 * The hazard-pointer protocol behind `llptr`: one step per atomic operation,
 * interleaved over any number of threads, cells and objects.
 *
 * Three fields of a slot are auxiliary, written but never read by any step:
 * `grant` (the reference a writer left for the publication in the slot),
 * `holder` (the thread whose hazard owns the slot) and `marker` (the thread
 * that set the flag bit).
 */
module HazardMachine {
  import opened SeqSum

  /** Number of hazard slots, which is also the reference budget of one grant. */
  const SLOTS: nat := 64

  /** Decoded content of an `atomic_flag_ptr`; address 0 is the null pointer. */
  datatype Word = Word(ptr: nat, flags: nat)

  /** `key` and `flag` are the owner word without and with its lowest bit; key 0 means not allocated. */
  datatype Slot = Slot(key: nat, flag: bool, value: nat, grant: nat, holder: nat, marker: nat)

  /** The operations that may have to acquire a reference out of a cell. */
  datatype Op =
    | Load
    | Cas(weak: bool, expected: Word, desired: Word)

  /** A call in progress on cell `o`; the cell had `t0 + 1` historic values when the call began. */
  datatype Call = Call(o: nat, t0: nat, op: Op)

  /** Where a reader is: each stage names the atomic operation it is about to perform. */
  datatype ReadStage =
    | Read       // the first load of `llptr::load`
    | Try        // the compare-exchange of an owned-`expected` exchange
    | Alloc      // claim a slot for the hazard
    | Publish    // exchange the slot's value for the pointer
    | Check      // load the cell again
    | Acquire    // acquire one reference: the cell still held the pointer
    | Unpublish  // exchange the slot's value for zero
    | Decide     // release a surplus reference, return, or load again
    | Free       // give the slot back, then return
    | FreeRetry  // give the slot back, then try the compare-exchange again
    | Done       // return

  /** Where a writer that swapped a pointer out is, inside `basic_hazard::grant`. */
  datatype GrantStage =
    | Budget     // acquire the references that are handed out
    | MarkRead   // `mark`: load the slot's value; behind the last slot: release what is left
    | MarkOwner  // `mark`: set the flag bit of the owner word
    | MarkValue  // `mark`: exchange the value for zero
    | MarkClear  // `mark`: clear the flag bit

  /**
   * A reader carries the word `v` it last saw, its slot `s` and the references `acq` it got.
   * A writer carries the pointer `p` it swapped out of cell `o`, the references `nrefs` the swap
   * put at its disposal, the handles `kept` its caller keeps, the slot `i` and the grants `n` so far.
   */
  datatype PC =
    | Idle
    | Reader(c: Call, at: ReadStage, v: Word, s: nat, acq: nat)
    | Writer(o: nat, p: nat, nrefs: nat, kept: nat, to: GrantStage, i: nat, n: nat)

  /** `cells[o]` is the history of cell `o`, its last element the current content. */
  datatype State = State(
    threads: seq<PC>,
    cells: seq<seq<Word>>,
    slots: seq<Slot>,
    counts: map<nat, nat>,
    handles: multiset<nat>)
  {
    predicate WellFormed() {
      |slots| == SLOTS && forall o :: 0 <= o < |cells| ==> cells[o] != []
    }

    function Cur(o: nat): Word
      requires WellFormed() && o < |cells|
    {
      cells[o][|cells[o]| - 1]
    }

    /** Reference count of object `p`; memory that is not allocated has count zero. */
    function Count(p: nat): nat {
      if p in counts then counts[p] else 0
    }
  }

  /** Key under which the hazards of cell `o` are registered. */
  function Key(o: nat): nat { o + 1 }

  /** Everything happens on some thread `t`; `Step` is the next atomic operation of a call in progress. */
  datatype Action =
    | New(t: nat, p: nat)
    | Copy(t: nat, p: nat)
    | Drop(t: nat, p: nat)
    | SetFlags(t: nat, o: nat, flags: nat)
    | StartLoad(t: nat, o: nat)
    | StartCas(t: nat, o: nat, weak: bool, expected: Word, desired: Word)
    | Swap(t: nat, o: nat, w: Word, returnsOld: bool)
    | CasOnce(t: nat, o: nat, expected: Word, desired: Word, owned: bool)
    | Step(t: nat, slot: nat, spurious: bool)

  // ---------------------------------------------------------------- effects

  datatype Option<+T> = None | Some(value: T)

  datatype SlotWrite = SlotWrite(i: nat, h: Slot)

  datatype CellWrite = CellWrite(o: nat, w: Word)

  /**
   * What one atomic step does: the thread's next program counter, at most one slot and
   * one cell written, `delta` references acquired (or released) on object `obj`, and the
   * reference-owning handles in circulation afterwards.
   */
  datatype Effect = Effect(
    pc: PC,
    slot: Option<SlotWrite>,
    cell: Option<CellWrite>,
    obj: nat,
    delta: int,
    handles: multiset<nat>)

  predicate EffectOk(s: State, e: Effect)
    requires s.WellFormed()
  {
    && (e.slot.Some? ==> e.slot.value.i < SLOTS)
    && (e.cell.Some? ==> e.cell.value.o < |s.cells|)
    && 0 <= s.Count(e.obj) + e.delta
  }

  function Commit(s: State, t: nat, e: Effect): State
    requires s.WellFormed() && t < |s.threads| && EffectOk(s, e)
  {
    State(
      s.threads[t := e.pc],
      match e.cell
      case None => s.cells
      case Some(x) => s.cells[x.o := s.cells[x.o] + [x.w]],
      match e.slot
      case None => s.slots
      case Some(x) => s.slots[x.i := x.h],
      if e.delta == 0 then s.counts else s.counts[e.obj := s.Count(e.obj) + e.delta],
      e.handles)
  }

  /** The effect that only moves the program counter. */
  function Goto(s: State, pc: PC): Effect {
    Effect(pc, None, None, 0, 0, s.handles)
  }

  function Give(handles: multiset<nat>, p: nat): multiset<nat> {
    if p == 0 then handles else handles + multiset{p}
  }

  function Take(handles: multiset<nat>, p: nat): multiset<nat> {
    if p == 0 then handles else handles - multiset{p}
  }

  predicate Owns(handles: multiset<nat>, p: nat) { p == 0 || p in handles }

  /** The arguments of a finished compare-exchange go back: `desired` always, `expected` unless it is the result. */
  function GiveArgs(handles: multiset<nat>, op: Op, keepExpected: bool): multiset<nat> {
    match op
    case Load => handles
    case Cas(_, e, w) => if keepExpected then Give(handles, w.ptr) else Give(Give(handles, w.ptr), e.ptr)
  }

  // ---------------------------------------------------------------- steps

  predicate Enabled(s: State, a: Action)
    requires s.WellFormed()
  {
    && a.t < |s.threads|
    && (!a.Step? ==> s.threads[a.t].Idle?)
    && match a
       case New(_, p) => p != 0 && s.Count(p) == 0
       case Copy(_, p) => p != 0 && p in s.handles
       case Drop(_, p) => p != 0 && p in s.handles
       case SetFlags(_, o, _) => o < |s.cells|
       case StartLoad(_, o) => o < |s.cells|
       case StartCas(_, o, _, e, w) =>
         o < |s.cells| && Owns(s.handles, e.ptr) && Owns(Take(s.handles, e.ptr), w.ptr)
       case Swap(_, o, w, _) => o < |s.cells| && Owns(s.handles, w.ptr)
       case CasOnce(_, o, e, w, owned) =>
         && o < |s.cells| && s.Cur(o) == e
         && Owns(s.handles, w.ptr) && (owned ==> Owns(Take(s.handles, w.ptr), e.ptr))
       case Step(t, slot, _) => slot < SLOTS && InRange(s, s.threads[t])
  }

  /** Indices of a program counter are in range. */
  predicate InRange(s: State, pc: PC) {
    match pc
    case Idle => false
    case Reader(c, at, _, i, _) => c.o < |s.cells| && i < SLOTS && (at.Try? ==> c.op.Cas?)
    case Writer(_, _, nrefs, _, to, i, _) => nrefs <= SLOTS && i <= SLOTS && (!to.MarkRead? ==> i < SLOTS)
  }

  function EffectOf(s: State, a: Action): Effect
    requires s.WellFormed() && Enabled(s, a)
  {
    if !a.Step? then StartEffect(s, a)
    else if s.threads[a.t].Reader? then ReaderStep(s, a.t, a.slot, a.spurious)
    else WriterStep(s, a.t, a.spurious)
  }

  /** The cell a start action writes, if any. */
  function StartWrite(s: State, a: Action): Option<CellWrite>
    requires s.WellFormed() && Enabled(s, a) && !a.Step?
  {
    match a
    case SetFlags(_, o, flags) => Some(CellWrite(o, Word(s.Cur(o).ptr, flags)))
    case Swap(_, o, w, _) => Some(CellWrite(o, w))
    case CasOnce(_, o, _, w, _) => Some(CellWrite(o, w))
    case _ => None
  }

  /** Where the acting thread is after a start action. */
  function StartPC(s: State, a: Action): PC
    requires s.WellFormed() && Enabled(s, a) && !a.Step?
  {
    match a
    case StartLoad(_, o) => Reader(Call(o, |s.cells[o]| - 1, Load), Read, Word(0, 0), 0, 0)
    case StartCas(_, o, weak, e, w) =>
      Reader(Call(o, |s.cells[o]| - 1, Cas(weak, e, w)), Try, Word(0, 0), 0, 0)
    case Swap(_, o, w, returnsOld) =>
      StartGrant(o, s.Cur(o).ptr, if returnsOld then 0 else 1, if returnsOld then 1 else 0)
    case CasOnce(_, o, e, _, owned) => StartGrant(o, e.ptr, if owned then 2 else 1, 0)
    case _ => Idle
  }

  /** The handles in circulation after a start action. */
  function StartHandles(s: State, a: Action): multiset<nat>
    requires s.WellFormed() && Enabled(s, a) && !a.Step?
  {
    match a
    case New(_, p) => Give(s.handles, p)
    case Copy(_, p) => Give(s.handles, p)
    case Drop(_, p) => Take(s.handles, p)
    case StartCas(_, _, _, e, w) => Take(Take(s.handles, e.ptr), w.ptr)
    case Swap(_, _, w, _) => Take(s.handles, w.ptr)
    case CasOnce(_, _, e, w, owned) =>
      if owned then Take(Take(s.handles, w.ptr), e.ptr) else Take(s.handles, w.ptr)
    case _ => s.handles
  }

  function StartEffect(s: State, a: Action): Effect
    requires s.WellFormed() && Enabled(s, a) && !a.Step?
  {
    Effect(
      StartPC(s, a), None, StartWrite(s, a),
      if a.New? || a.Copy? || a.Drop? then a.p else 0,
      if a.New? || a.Copy? then 1 else if a.Drop? then -1 else 0,
      StartHandles(s, a))
  }

  /** `llptr::grant`: nothing to do for a null pointer. */
  function StartGrant(o: nat, p: nat, nrefs: nat, kept: nat): PC {
    if p == 0 then Idle else Writer(o, p, nrefs, kept, Budget, 0, 0)
  }

  /** The steps of `load` and of a compare-exchange up to its success. */
  function ReaderStep(s: State, t: nat, slot: nat, spurious: bool): Effect
    requires s.WellFormed() && t < |s.threads| && slot < SLOTS
    requires s.threads[t].Reader? && InRange(s, s.threads[t])
  {
    var pc := s.threads[t];
    var Reader(c, at, v, i, acq) := pc;
    var cur, h := s.Cur(c.o), s.slots[i];
    match at
    case Read => Goto(s, pc.(v := cur, at := if cur.ptr == 0 then Done else Alloc))
    case Try =>
      var e := c.op.expected;
      if cur == e && !(c.op.weak && spurious) then
        Goto(s, StartGrant(c.o, e.ptr, 1, 1)).(cell := Some(CellWrite(c.o, c.op.desired)))
      else if cur.ptr == e.ptr || cur.ptr == 0 then
        Goto(s, pc.(v := cur, at := Done)).(handles := GiveArgs(s.handles, c.op, cur.ptr == e.ptr))
      else Goto(s, pc.(v := cur, at := Alloc))
    case Alloc =>
      var free := s.slots[slot];
      if free.key == 0 && !free.flag && !spurious
      then Goto(s, pc.(s := slot, at := Publish)).(slot := Some(SlotWrite(slot, free.(key := Key(c.o), holder := t))))
      else Goto(s, pc)
    case Publish => Goto(s, pc.(at := Check)).(slot := Some(SlotWrite(i, h.(value := v.ptr))))
    case Check => Goto(s, if cur.ptr == v.ptr then pc.(at := Acquire) else pc.(at := Unpublish, acq := 0))
    case Acquire => Goto(s, pc.(at := Unpublish, acq := 1)).(obj := v.ptr, delta := 1)
    case Unpublish =>
      Goto(s, pc.(at := Decide, acq := if h.value == 0 then acq + 1 else acq))
        .(slot := Some(SlotWrite(i, h.(value := 0, grant := 0))))
    case Decide =>
      if acq > 1 then Goto(s, pc.(at := Free)).(obj := v.ptr, delta := 1 - acq)
      else if acq == 1 then Goto(s, pc.(at := Free))
      else if c.op.Cas? && !c.op.weak && cur == c.op.expected then Goto(s, pc.(at := FreeRetry))
      else Goto(s, pc.(v := cur, at := if cur.ptr == 0 then Free else Publish))
    case Free =>
      Goto(s, pc.(at := Done))
        .(slot := Some(SlotWrite(i, h.(key := 0))), handles := GiveArgs(s.handles, c.op, false))
    case FreeRetry => Goto(s, pc.(at := Try)).(slot := Some(SlotWrite(i, h.(key := 0))))
    case Done => Goto(s, Idle).(handles := Give(s.handles, v.ptr))
  }

  /** The steps of `basic_hazard::grant` after `p` was swapped out of cell `o`. */
  function WriterStep(s: State, t: nat, spurious: bool): Effect
    requires s.WellFormed() && t < |s.threads|
    requires s.threads[t].Writer? && InRange(s, s.threads[t])
  {
    var pc := s.threads[t];
    var Writer(o, p, nrefs, kept, to, i, n) := pc;
    match to
    case Budget => Goto(s, pc.(to := MarkRead)).(obj := p, delta := SLOTS - nrefs)
    case MarkRead =>
      if i == SLOTS then
        Goto(s, Idle).(obj := p, delta := n - SLOTS, handles := if kept == 1 then Give(s.handles, p) else s.handles)
      else if s.slots[i].value == p then Goto(s, pc.(to := MarkOwner))
      else Goto(s, pc.(i := i + 1))
    case MarkOwner =>
      var h := s.slots[i];
      if h.key == Key(o) && !h.flag && !spurious
      then Goto(s, pc.(to := MarkValue)).(slot := Some(SlotWrite(i, h.(flag := true, marker := t))))
      else if h.key == Key(o) then Goto(s, pc.(to := MarkRead))
      else Goto(s, pc.(to := MarkRead, i := i + 1))
    case MarkValue =>
      var h := s.slots[i];
      if h.value == p
      then Goto(s, pc.(to := MarkClear, n := n + 1)).(slot := Some(SlotWrite(i, h.(value := 0, grant := p))))
      else Goto(s, pc.(to := MarkClear))
    case MarkClear =>
      Goto(s, pc.(to := MarkRead, i := i + 1)).(slot := Some(SlotWrite(i, s.slots[i].(flag := false))))
  }

  // ---------------------------------------------------------------- behaviours

  predicate Init(s: State) {
    && s.WellFormed()
    && (forall t :: 0 <= t < |s.threads| ==> s.threads[t] == Idle)
    && (forall o :: 0 <= o < |s.cells| ==> s.cells[o] == [Word(0, 0)])
    && (forall i :: 0 <= i < SLOTS ==> s.slots[i] == Slot(0, false, 0, 0, 0, 0))
    && s.counts == map[]
    && s.handles == multiset{}
  }

  /** A release of more references than the object has is not a step: such a state would be stuck. */
  ghost predicate Next(s: State, s': State) {
    && s.WellFormed()
    && exists a :: Enabled(s, a) && EffectOk(s, EffectOf(s, a)) && s' == Commit(s, a.t, EffectOf(s, a))
  }

  ghost predicate StepAt(b: seq<State>, k: nat)
    requires k + 1 < |b|
  {
    Next(b[k], b[k + 1])
  }

  /** A finite run of the protocol, of any length and any interleaving. */
  ghost predicate Behavior(b: seq<State>) {
    && b != [] && Init(b[0])
    && forall k :: 0 <= k < |b| - 1 ==> StepAt(b, k)
  }
}
