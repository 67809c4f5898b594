/** What every run of the hazard protocol guarantees: the promises of `llptr` to its callers. */
module HazardTheorems {
  import opened SeqSum
  import opened HazardMachine
  import opened HazardInvariant
  import opened HazardConservation

  /**
   * Reference conservation: in every reachable state the count of an object equals the cells
   * that point at it, the handles in circulation, the grants placed in slots and not yet
   * collected, and the references of calls in progress, the unspent budget of writers included.
   */
  lemma ReferenceConservation(b: seq<State>, k: nat, p: nat)
    requires Behavior(b) && k < |b| && p != 0
    ensures b[k].Count(p) ==
            Sum(b[k].cells, CellWeight(p)) + b[k].handles[p] + Sum(b[k].slots, GrantWeight(p))
            + Sum(b[k].threads, ThreadWeight(p))
  {
    InvAlways(b, k);
  }

  /** When all calls have returned, only cells and handles are left, and every slot is free and empty. */
  lemma QuiescentConservation(b: seq<State>, k: nat, p: nat)
    requires Behavior(b) && k < |b| && p != 0
    requires forall t :: 0 <= t < |b[k].threads| ==> b[k].threads[t].Idle?
    ensures b[k].Count(p) == Sum(b[k].cells, CellWeight(p)) + b[k].handles[p]
    ensures forall i :: 0 <= i < |b[k].slots| ==>
              var h := b[k].slots[i]; h.key == 0 && !h.flag && h.value == 0 && h.grant == 0
  {
    var s := b[k];
    InvAlways(b, k);
    forall i | 0 <= i < |s.slots|
      ensures var h := s.slots[i]; h.key == 0 && !h.flag && h.value == 0 && h.grant == 0
    {
      assert SlotOk(s.threads, s.slots[i], i);
    }
    SumZero(s.threads, ThreadWeight(p));
    SumZero(s.slots, GrantWeight(p));
  }

  /**
   * No resurrection: whenever a step acquires references on an existing object, that object
   * still has a reference. Only the creation of an object starts from count zero.
   */
  lemma NoResurrection(b: seq<State>, k: nat, a: Action)
    requires Behavior(b) && k < |b| && b[k].WellFormed() && Enabled(b[k], a)
    requires 0 < EffectOf(b[k], a).delta && !a.New?
    ensures 1 <= b[k].Count(EffectOf(b[k], a).obj)
  {
    var s := b[k];
    InvAlways(b, k);
    assert PCOk(s.cells, s.threads[a.t]);
    if a.Copy? {
      CountCovers(s, a.p);
    } else {
      AcquiringStep(s, a);
      if s.threads[a.t].Reader? {
        ProtectedIsAlive(s, a.t);
      } else {
        CountCovers(s, s.threads[a.t].p);
      }
    }
  }

  /** References are acquired only by a reader that is about to, or by a writer that fills its budget. */
  lemma AcquiringStep(s: State, a: Action)
    requires CallsOk(s) && Enabled(s, a) && 0 < EffectOf(s, a).delta && !a.New? && !a.Copy?
    ensures a.Step?
    ensures var pc := s.threads[a.t];
      || (pc.Reader? && pc.at.Acquire? && EffectOf(s, a).obj == pc.v.ptr)
      || (pc.Writer? && pc.to.Budget? && EffectOf(s, a).obj == pc.p)
  {
    assert PCOk(s.cells, s.threads[a.t]);
  }

  /** A reader has published its pointer, and sees it in the cell. */
  predicate SeesAgain(s: State, t: nat) {
    && s.WellFormed() && t < |s.threads| && s.threads[t].Reader? && s.threads[t].at.Check?
    && var pc := s.threads[t];
       && pc.c.o < |s.cells| && pc.s < |s.slots| && s.Cur(pc.c.o).ptr == pc.v.ptr
       && s.slots[pc.s].key == Key(pc.c.o) && (s.slots[pc.s].value == pc.v.ptr || s.slots[pc.s].grant == pc.v.ptr)
  }

  /** The step that brings a reader to its acquisition. */
  lemma ArrivesAtAcquire(s: State, a: Action)
    requires s.WellFormed() && Enabled(s, a) && Inv(s) && EffectOf(s, a).pc.Reader? && EffectOf(s, a).pc.at.Acquire?
    ensures SeesAgain(s, a.t) && s.threads[a.t] == EffectOf(s, a).pc.(at := Check)
  {
    var pc := s.threads[a.t];
    assert PCOk(s.cells, pc);
    assert HolderOk(s.slots[pc.s], a.t, pc);
  }

  lemma LastStep(b: seq<State>, k: nat) returns (a: Action)
    requires Behavior(b) && 0 < k < |b|
    ensures b[k - 1].WellFormed() && Enabled(b[k - 1], a)
    ensures b[k].threads == b[k - 1].threads[a.t := EffectOf(b[k - 1], a).pc]
  {
    assert StepAt(b, k - 1);
    a :| Enabled(b[k - 1], a) && EffectOk(b[k - 1], EffectOf(b[k - 1], a))
      && b[k] == Commit(b[k - 1], a.t, EffectOf(b[k - 1], a));
  }

  /** A reader that acquires has found its pointer in the cell again, after it published it. */
  lemma {:induction false} FoundAgain(b: seq<State>, k: nat, t: nat) returns (j: nat)
    requires Behavior(b) && k < |b| && t < |b[k].threads|
    requires b[k].threads[t].Reader? && b[k].threads[t].at.Acquire?
    ensures j < k && SeesAgain(b[j], t) && b[j].threads[t] == b[k].threads[t].(at := Check)
  {
    assert k > 0;
    var a := LastStep(b, k);
    if a.t == t {
      j := k - 1;
      InvAlways(b, j);
      ArrivesAtAcquire(b[j], a);
    } else {
      j := FoundAgain(b, k - 1, t);
    }
  }

  /** No release ever exceeds the count: every enabled step is possible. */
  lemma ReleasesNeverUnderflow(b: seq<State>, k: nat, a: Action)
    requires Behavior(b) && k < |b| && b[k].WellFormed() && Enabled(b[k], a)
    ensures 0 <= b[k].Count(EffectOf(b[k], a).obj) + EffectOf(b[k], a).delta
  {
    InvAlways(b, k);
    InvStep(b[k], a);
  }

  /**
   * A dead object is out of reach: no cell, handle, grant or returned result
   * refers to it, and no writer that still has budget for it.
   */
  lemma DeadIsUnreachable(b: seq<State>, k: nat, p: nat)
    requires Behavior(b) && k < |b| && p != 0 && b[k].Count(p) == 0 && b[k].WellFormed()
    ensures p !in b[k].handles
    ensures forall o :: 0 <= o < |b[k].cells| ==> b[k].Cur(o).ptr != p
    ensures forall i :: 0 <= i < |b[k].slots| ==> b[k].slots[i].grant != p
    ensures forall t :: 0 <= t < |b[k].threads| ==>
              var pc := b[k].threads[t];
              && (pc.Writer? && pc.n < SLOTS ==> pc.p != p)
              && (pc.Reader? && pc.at.Done? ==> pc.v.ptr != p)
  {
    var s := b[k];
    InvAlways(b, k);
    CountCovers(s, p);
    forall o | 0 <= o < |s.cells| ensures s.Cur(o).ptr != p {
      assert One(s.Cur(o).ptr, p) <= 0;
    }
    forall i | 0 <= i < |s.slots| ensures s.slots[i].grant != p {
      assert One(s.slots[i].grant, p) <= 0;
    }
    forall t | 0 <= t < |s.threads|
      ensures var pc := s.threads[t];
        && (pc.Writer? && pc.n < SLOTS ==> pc.p != p)
        && (pc.Reader? && pc.at.Done? ==> pc.v.ptr != p)
    {
      assert PCOk(s.cells, s.threads[t]) && ThreadRefs(s.threads[t], p) <= 0;
    }
  }

  /**
   * Linearizability: what a call returns was the content of its cell at some moment since the
   * call began; a failed strong compare-exchange reports a content that differs from `expected`;
   * and the returned pointer comes with a reference.
   */
  lemma ResultsAreLinearizable(b: seq<State>, k: nat, t: nat)
    requires Behavior(b) && k < |b| && t < |b[k].threads|
    requires b[k].threads[t].Reader? && b[k].threads[t].at.Done?
    ensures var c, v := b[k].threads[t].c, b[k].threads[t].v;
      && c.o < |b[k].cells|
      && (exists i :: c.t0 <= i < |b[k].cells[c.o]| && b[k].cells[c.o][i] == v)
      && (c.op.Cas? && !c.op.weak ==> v != c.op.expected)
      && (v.ptr != 0 ==> 1 <= b[k].Count(v.ptr))
  {
    var s := b[k];
    InvAlways(b, k);
    var pc := s.threads[t];
    assert PCOk(s.cells, pc) && Observed(s.cells, pc.c, pc.v);
    if pc.v.ptr != 0 {
      CountCovers(s, pc.v.ptr);
    }
  }

  /** Two live hazards never share a slot. */
  lemma HazardsDoNotShare(b: seq<State>, k: nat, t: nat, u: nat, i: nat)
    requires Behavior(b) && k < |b| && t < |b[k].threads| && u < |b[k].threads|
    requires Holds(b[k].threads[t], i) && Holds(b[k].threads[u], i)
    ensures t == u
  {
    InvAlways(b, k);
    assert PCOk(b[k].cells, b[k].threads[t]);
    assert HolderOk(b[k].slots[i], t, b[k].threads[t]);
    assert HolderOk(b[k].slots[i], u, b[k].threads[u]);
  }

  /**
   * A grant lands only on a live publication of the very pointer and the very cell, one that has
   * not been granted before; so each publication gets at most one grant.
   */
  lemma GrantLandsOnPublication(b: seq<State>, k: nat, t: nat)
    requires Behavior(b) && k < |b| && t < |b[k].threads| && b[k].WellFormed()
    requires var pc := b[k].threads[t];
      pc.Writer? && pc.to.MarkValue? && pc.i < SLOTS && b[k].slots[pc.i].value == pc.p
    ensures var pc, h := b[k].threads[t], b[k].slots[b[k].threads[t].i];
      && h.grant == 0 && h.flag
      && h.holder < |b[k].threads|
      && Published(b[k].threads[h.holder]) && b[k].threads[h.holder].s == pc.i
      && b[k].threads[h.holder].c.o == pc.o && b[k].threads[h.holder].v.ptr == pc.p
  {
    var s := b[k];
    InvAlways(b, k);
    var pc := s.threads[t];
    var h := s.slots[pc.i];
    assert PCOk(s.cells, pc);
    assert SlotOk(s.threads, h, pc.i) && MarkerOk(h, t, pc);
    assert HolderOk(h, h.holder, s.threads[h.holder]);
  }

  /** A grant that was placed stays until the hazard it was placed for collects it. */
  lemma GrantStaysUntilCollected(b: seq<State>, k: nat, a: Action, t: nat)
    requires Behavior(b) && k < |b| && b[k].WellFormed() && Enabled(b[k], a)
    requires t < |b[k].threads| && t != a.t && Published(b[k].threads[t]) && b[k].threads[t].s < SLOTS
    requires b[k].slots[b[k].threads[t].s].grant == b[k].threads[t].v.ptr
    ensures SlotAfter(b[k], EffectOf(b[k], a), b[k].threads[t].s).grant == b[k].threads[t].v.ptr
  {
    InvAlways(b, k);
    GrantStays(b[k], a, t);
  }

  /** One scan hands out at most as many references as there are slots, so the budget suffices. */
  lemma ScanStaysWithinBudget(b: seq<State>, k: nat, t: nat)
    requires Behavior(b) && k < |b| && t < |b[k].threads| && b[k].threads[t].Writer?
    ensures var pc := b[k].threads[t];
      pc.i <= SLOTS && pc.n <= SLOTS && (pc.to.MarkRead? ==> pc.n <= pc.i)
  {
    InvAlways(b, k);
    assert PCOk(b[k].cells, b[k].threads[t]);
  }

  /** The three assertions of `basic_hazard`: a slot is empty when claimed, when published to, and when given back. */
  lemma HazardAssertionsHold(b: seq<State>, k: nat, t: nat, slot: nat)
    requires Behavior(b) && k < |b| && t < |b[k].threads| && slot < |b[k].slots| && b[k].threads[t].Reader?
    ensures var pc := b[k].threads[t];
      && (pc.at.Alloc? && b[k].slots[slot].key == 0 ==> b[k].slots[slot].value == 0)
      && (pc.at.Publish? || pc.at.Free? || pc.at.FreeRetry? ==>
            pc.s < |b[k].slots| && b[k].slots[pc.s].value == 0)
  {
    var s := b[k];
    InvAlways(b, k);
    var pc := s.threads[t];
    assert PCOk(s.cells, pc);
    assert SlotOk(s.threads, s.slots[slot], slot);
    if Holds(pc, pc.s) {
      assert HolderOk(s.slots[pc.s], t, pc);
    }
  }

  // ---------------------------------------------------------------- what exchanges do to a cell

  ghost predicate Does(s: State, a: Action, s': State) {
    s.WellFormed() && Enabled(s, a) && EffectOk(s, EffectOf(s, a)) && s' == Commit(s, a.t, EffectOf(s, a))
  }

  /** The action is one that puts `w` into cell `o`: what it found there, pointer and flags, is what it asks for. */
  predicate Puts(s: State, a: Action, o: nat, w: Word)
    requires s.WellFormed() && o < |s.cells| && a.t < |s.threads|
  {
    match a
    case SetFlags(_, x, flags) => x == o && w == Word(s.Cur(o).ptr, flags)
    case Swap(_, x, v, _) => x == o && w == v
    case CasOnce(_, x, expected, desired, _) => x == o && s.Cur(o) == expected && w == desired
    case Step(t, _, _) =>
      s.threads[t].Reader? && s.threads[t].at.Try? && s.threads[t].c.o == o
      && (match s.threads[t].c.op
          case Load => false
          case Cas(_, expected, desired) => s.Cur(o) == expected && w == desired)
    case _ => false
  }

  /**
   * The history of a cell grows by one word at a time, and only by an action that puts it there: a
   * compare-exchange puts `desired` exactly when the last word is `expected`, flags included; only a
   * weak one may fail in spite of that. An exchange puts its word always.
   */
  lemma ExchangesTakeEffect(b: seq<State>, k: nat, a: Action, o: nat)
    requires Behavior(b) && k + 1 < |b| && Does(b[k], a, b[k + 1]) && o < |b[k].cells|
    ensures |b[k + 1].cells| == |b[k].cells|
    ensures b[k + 1].cells[o] != b[k].cells[o] ==>
      exists w :: Puts(b[k], a, o, w) && b[k + 1].cells[o] == b[k].cells[o] + [w]
    ensures forall w :: Puts(b[k], a, o, w) && !(a.Step? && a.spurious && b[k].threads[a.t].c.op.weak) ==>
      b[k + 1].cells[o] == b[k].cells[o] + [w]
  {
    var e := EffectOf(b[k], a);
    if e.cell.Some? && e.cell.value.o == o {
      assert Puts(b[k], a, o, e.cell.value.w);
    }
  }

  /** A call is what it was started as, and its cell had a last word then, which no result precedes. */
  lemma CallsBegin(b: seq<State>, k: nat, a: Action)
    requires Behavior(b) && k + 1 < |b| && Does(b[k], a, b[k + 1])
    ensures var pc' := b[k + 1].threads[a.t];
      && (a.StartLoad? || a.StartCas? ==> pc'.Reader? && pc'.c.o == a.o && pc'.c.t0 + 1 == |b[k].cells[a.o]|)
      && (a.StartLoad? ==> pc'.c.op == Load && pc'.at.Read?)
      && (a.StartCas? ==> pc'.c.op == Cas(a.weak, a.expected, a.desired) && pc'.at.Try?)
    ensures a.Step? && b[k].threads[a.t].Reader? && b[k + 1].threads[a.t].Reader? ==>
      b[k + 1].threads[a.t].c == b[k].threads[a.t].c
    ensures forall t :: 0 <= t < |b[k].threads| && t != a.t ==> b[k + 1].threads[t] == b[k].threads[t]
  {}

  /** What a thread is after an exchange that found the pointer `p`: there is nothing to do for nil. */
  predicate Holding(pc: PC, o: nat, p: nat, kept: bool) {
    if p == 0 then pc.Idle? else pc.Writer? && pc.o == o && pc.p == p && (pc.kept == 1 <==> kept)
  }

  /**
   * After an exchange its thread has the pointer that was last before it in hand. A swap that returns
   * it keeps it for the caller, as a compare-exchange keeps the handle on `expected`; the others do not.
   */
  lemma ExchangesHold(b: seq<State>, k: nat, a: Action)
    requires Behavior(b) && k + 1 < |b| && Does(b[k], a, b[k + 1])
    ensures var pc, pc' := b[k].threads[a.t], b[k + 1].threads[a.t];
      && (a.Swap? ==> Holding(pc', a.o, b[k].Cur(a.o).ptr, a.returnsOld))
      && (a.CasOnce? ==> Holding(pc', a.o, b[k].Cur(a.o).ptr, false))
      && (a.Step? && pc.Reader? && !pc'.Reader? && !pc.at.Done? ==>
            pc.c.o < |b[k].cells| && Holding(pc', pc.c.o, b[k].Cur(pc.c.o).ptr, true)
            && pc.c.op.Cas? && b[k + 1].cells[pc.c.o] == b[k].cells[pc.c.o] + [pc.c.op.desired])
  {}

  /** What a thread has in hand stays that until the grant is over, and what it kept is a handle of its caller then. */
  lemma HeldIsHandedBack(b: seq<State>, k: nat, a: Action)
    requires Behavior(b) && k + 1 < |b| && Does(b[k], a, b[k + 1]) && a.Step? && b[k].threads[a.t].Writer?
    ensures var pc, pc' := b[k].threads[a.t], b[k + 1].threads[a.t];
      if pc'.Idle? then b[k + 1].handles == b[k].handles + if pc.kept == 1 then multiset{pc.p} else multiset{}
      else pc'.Writer? && pc'.o == pc.o && pc'.p == pc.p && pc'.kept == pc.kept && b[k + 1].handles == b[k].handles
  {
    InvAlways(b, k);
    assert PCOk(b[k].cells, b[k].threads[a.t]);
  }

  /** A call that ends with a result hands over exactly that. */
  lemma ResultsAreHandedOver(b: seq<State>, k: nat, a: Action)
    requires Behavior(b) && k + 1 < |b| && Does(b[k], a, b[k + 1])
    requires a.Step? && b[k].threads[a.t].Reader? && b[k].threads[a.t].at.Done?
    ensures b[k + 1].threads[a.t].Idle?
    ensures var p := b[k].threads[a.t].v.ptr;
      b[k + 1].handles == b[k].handles + if p != 0 then multiset{p} else multiset{}
  {}
}
