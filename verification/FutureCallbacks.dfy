/**
 * Completion of a shared state against the installation of callbacks and dependants, one step per
 * lock, atomic operation or list operation, interleaved over any number of threads.
 */
module FutureCallbacks {
  import opened SeqSum

  /** `state_`: who completed it is only recorded, no step reads it. */
  datatype Completion = Uninitialized | Ready(who: nat)

  /** Holder of one of the two locks. */
  datatype Owner = Free | Held(who: nat)

  /** An element of `dependants_`: `noop_dependant`, or the function of an installer. */
  datatype Entry = Noop | Call(i: nat)

  /** Where a thread is inside `set_value` or `set_exc`. */
  datatype SetStage =
    | Outside
    | Lock       // take the spin lock of the shared state
    | Check      // ensure_uninitialized
    | Throw      // promise_already_satisfied: give the lock back
    | Exchange   // store the result, exchange the state
    | Unlock     // give the lock back
    | Swap       // invoke_ready_cb: take all the lists under the mutex
    | Deliver    // call what is left in `todo`
    | Finished   // returned
    | Threw      // returned with the exception

  datatype Setter = Setter(at: SetStage, todo: seq<Entry>)

  datatype Kind = Unshared | Shared | Dependant | TwoPhase

  /** Where a thread is inside `install_callback` or `register_dependant`. */
  datatype InstallStage =
    | Before      // lock the mutex
    | Look        // load the state
    | Put         // append to the list, unlock the mutex
    | Between     // between register_dependant_begin and commit: lock the mutex again
    | LookAgain   // load the state
    | PutAt       // fill the reserved element, unlock the mutex
    | CallSelf    // the state was ready, the mutex is unlocked: call the function
    | Installed   // returned

  /** `idx` is the element that begin reserved, when it did reserve one. */
  datatype Installer = Installer(kind: Kind, at: InstallStage, reserved: bool, idx: nat)

  datatype State = State(
    st: Completion, lck: Owner, mtx: Owner,
    unshared: seq<Entry>,      // ready_cb_, empty or one callback
    shared: seq<Entry>,        // shared_ready_cb_ and its chain, latest first
    dependants: seq<Entry>,    // dependants_
    setters: seq<Setter>,
    installers: seq<Installer>,
    calls: seq<nat>)           // how often the function of each installer was called

  datatype Action = Set(k: nat) | Install(i: nat)

  predicate Enabled(s: State, a: Action) {
    match a
    case Set(k) =>
      && k < |s.setters| && !s.setters[k].at.Finished? && !s.setters[k].at.Threw?
      && (s.setters[k].at.Lock? ==> s.lck.Free?) && (s.setters[k].at.Swap? ==> s.mtx.Free?)
    case Install(i) =>
      && i < |s.installers| == |s.calls| && !s.installers[i].at.Installed?
      && (s.installers[i].at.Before? || s.installers[i].at.Between? ==> s.mtx.Free?)
      && (s.installers[i].at.PutAt? ==> s.installers[i].idx < |s.dependants|)
  }

  function Invoke(calls: seq<nat>, e: Entry): seq<nat> {
    if e.Call? && e.i < |calls| then calls[e.i := calls[e.i] + 1] else calls
  }

  function AdvanceSetter(s: State, k: nat): State
    requires Enabled(s, Set(k))
  {
    var me := s.setters[k];
    match me.at
    case Outside => s.(setters := s.setters[k := me.(at := Lock)])
    case Lock => s.(lck := Held(k), setters := s.setters[k := me.(at := Check)])
    case Check => s.(setters := s.setters[k := me.(at := if s.st.Uninitialized? then Exchange else Throw)])
    case Throw => s.(lck := Free, setters := s.setters[k := me.(at := Threw)])
    case Exchange => s.(st := Ready(k), setters := s.setters[k := me.(at := Unlock)])
    case Unlock => s.(lck := Free, setters := s.setters[k := me.(at := Swap)])
    case Swap =>
      s.(unshared := [], shared := [], dependants := [],
         setters := s.setters[k := Setter(Deliver, s.unshared + s.shared + s.dependants)])
    case Deliver =>
      if me.todo == [] then s.(setters := s.setters[k := me.(at := Finished)])
      else s.(calls := Invoke(s.calls, me.todo[0]), setters := s.setters[k := me.(todo := me.todo[1..])])
    case Finished => s
    case Threw => s
  }

  function AdvanceInstaller(s: State, i: nat): State
    requires Enabled(s, Install(i))
  {
    var me := s.installers[i];
    match me.at
    case Before => s.(mtx := Held(i), installers := s.installers[i := me.(at := Look)])
    case Look =>
      if s.st.Uninitialized? then s.(installers := s.installers[i := me.(at := Put)])
      else s.(mtx := Free, installers := s.installers[i := me.(at := if me.kind.TwoPhase? then Between else CallSelf)])
    case Put =>
      var s1 := s.(mtx := Free, installers := s.installers[i := me.(at := Installed)]);
      (match me.kind
       case Unshared => s1.(unshared := [Call(i)])
       case Shared => s1.(shared := [Call(i)] + s.shared)
       case Dependant => s1.(dependants := s.dependants + [Call(i)])
       case TwoPhase => s.(mtx := Free, dependants := s.dependants + [Noop],
                           installers := s.installers[i :=
                             me.(at := Between, reserved := true, idx := |s.dependants|)]))
    case Between => s.(mtx := Held(i), installers := s.installers[i := me.(at := LookAgain)])
    case LookAgain =>
      if s.st.Uninitialized? then s.(installers := s.installers[i := me.(at := PutAt)])
      else s.(mtx := Free, installers := s.installers[i := me.(at := CallSelf)])
    case PutAt =>
      s.(mtx := Free, dependants := s.dependants[me.idx := Call(i)],
         installers := s.installers[i := me.(at := Installed)])
    case CallSelf => s.(calls := Invoke(s.calls, Call(i)), installers := s.installers[i := me.(at := Installed)])
    case Installed => s
  }

  function Apply(s: State, a: Action): State
    requires Enabled(s, a)
  {
    match a
    case Set(k) => AdvanceSetter(s, k)
    case Install(i) => AdvanceInstaller(s, i)
  }

  /** A shared state has one unshared future, and installing a callback consumes it. */
  predicate OneFuture(installers: seq<Installer>) {
    forall i: nat, j: nat :: i < |installers| && j < |installers| && i != j ==>
      !(installers[i].kind.Unshared? && installers[j].kind.Unshared?)
  }

  /** Nothing completed, nothing installed, any number of threads about to try. */
  predicate Init(s: State) {
    && OneFuture(s.installers)
    && s.st.Uninitialized? && s.lck.Free? && s.mtx.Free? && s.unshared == s.shared == s.dependants == []
    && |s.calls| == |s.installers| && (forall i :: 0 <= i < |s.calls| ==> s.calls[i] == 0)
    && (forall i :: 0 <= i < |s.installers| ==> s.installers[i].at.Before? && !s.installers[i].reserved)
    && (forall k :: 0 <= k < |s.setters| ==> s.setters[k] == Setter(Outside, []))
  }

  ghost predicate Next(s: State, s': State) {
    exists a :: Enabled(s, a) && s' == Apply(s, a)
  }

  ghost predicate StepAt(b: seq<State>, k: nat)
    requires k + 1 < |b|
  {
    Next(b[k], b[k + 1])
  }

  ghost predicate Behavior(b: seq<State>) {
    b != [] && Init(b[0]) && forall k :: 0 <= k < |b| - 1 ==> StepAt(b, k)
  }

  // ---------------------------------------------------------------- invariant

  function Is(i: nat): Entry -> int { (e: Entry) => if e == Call(i) then 1 else 0 }

  function InHands(i: nat): Setter -> int { (t: Setter) => Sum(t.todo, Is(i)) }

  /** How often the function of installer `i` is waiting to be called, and was called already. */
  function Tally(s: State, i: nat): int
    requires i < |s.calls| && i < |s.installers|
  {
    Sum(s.unshared, Is(i)) + Sum(s.shared, Is(i)) + Sum(s.dependants, Is(i)) + Sum(s.setters, InHands(i))
    + s.calls[i] + if s.installers[i].at.CallSelf? then 1 else 0
  }

  /** The lists have been taken. */
  predicate Taken(s: State) {
    s.st.Ready? && s.st.who < |s.setters| && (s.setters[s.st.who].at.Deliver? || s.setters[s.st.who].at.Finished?)
  }

  predicate SetterOk(s: State, k: nat)
    requires k < |s.setters|
  {
    var me := s.setters[k];
    && (me.at.Check? || me.at.Throw? || me.at.Exchange? || me.at.Unlock? <==> s.lck == Held(k))
    && (me.at.Exchange? ==> s.st.Uninitialized?)
    && (s.st == Ready(k) <==> me.at.Unlock? || me.at.Swap? || me.at.Deliver? || me.at.Finished?)
    && (me.todo != [] ==> me.at.Deliver?)
  }

  predicate InstallerOk(s: State, i: nat)
    requires i < |s.installers|
  {
    var me := s.installers[i];
    && (me.at.Look? || me.at.Put? || me.at.LookAgain? || me.at.PutAt? <==> s.mtx == Held(i))
    && (me.at.Put? || me.at.PutAt? ==> !Taken(s))
    && (me.at.CallSelf? ==> s.st.Ready?)
    && (me.at.Between? || me.at.LookAgain? || me.at.PutAt? ==> me.kind.TwoPhase?)
    && ((me.at.Between? || me.at.LookAgain?) && !s.st.Ready? ==> me.reserved)
    && (me.at.PutAt? ==> me.reserved)
    && (me.at.Before? || me.at.Look? || me.at.Put? ==> !me.reserved)
    && (Reserving(me) && !Taken(s) ==> me.idx < |s.dependants| && s.dependants[me.idx] == Noop)
  }

  predicate Reserving(me: Installer) {
    me.reserved && (me.at.Between? || me.at.LookAgain? || me.at.PutAt?)
  }

  predicate Once(s: State, i: nat)
    requires i < |s.calls| && i < |s.installers|
  {
    && Tally(s, i) == (if s.installers[i].at.CallSelf? || s.installers[i].at.Installed? then 1 else 0)
    && (0 < s.calls[i] ==> s.st.Ready?)
  }

  /** `ready_cb_` holds nothing, or the callback of an installer that put it there. */
  predicate SlotOk(s: State) {
    s.unshared == [] || (|s.unshared| == 1 && s.unshared[0].Call? && s.unshared[0].i < |s.installers|
                         && s.installers[s.unshared[0].i].kind.Unshared? && s.installers[s.unshared[0].i].at.Installed?)
  }

  /** Two registrations never reserve the same element. */
  predicate OwnElements(s: State) {
    !Taken(s) ==>
      forall i: nat, j: nat :: i < j < |s.installers| ==>
        (Reserving(s.installers[i]) && Reserving(s.installers[j]) ==> s.installers[i].idx != s.installers[j].idx)
  }

  ghost predicate Inv(s: State) {
    && |s.calls| == |s.installers| && OneFuture(s.installers) && SlotOk(s)
    && (s.st.Ready? ==> s.st.who < |s.setters|)
    && (s.lck.Held? ==> s.lck.who < |s.setters|) && (s.mtx.Held? ==> s.mtx.who < |s.installers|)
    && (Taken(s) ==> s.unshared == s.shared == s.dependants == [])
    && (forall k: nat :: k < |s.setters| ==> SetterOk(s, k))
    && (forall i: nat :: i < |s.installers| ==> InstallerOk(s, i))
    && (forall i: nat :: i < |s.installers| ==> Once(s, i))
    && OwnElements(s)
  }

  // ---------------------------------------------------------------- preservation

  lemma SetterStepSetters(s: State, k: nat)
    requires Inv(s) && Enabled(s, Set(k))
    ensures var s' := Apply(s, Set(k)); forall j: nat :: j < |s'.setters| ==> SetterOk(s', j)
    ensures Taken(s) ==> Taken(Apply(s, Set(k)))
    ensures var s' := Apply(s, Set(k)); s'.st.Ready? ==> s'.st.who < |s'.setters|
    ensures Taken(Apply(s, Set(k))) ==> Taken(s) || s.setters[k].at.Swap?
  {
    var s' := Apply(s, Set(k));
    assert SetterOk(s, k);
    forall j: nat | j < |s'.setters|
      ensures SetterOk(s', j)
    {
      assert SetterOk(s, j);
    }
    if s.st.Ready? {
      assert SetterOk(s, s.st.who);
    }
  }

  lemma SetterStepInstallers(s: State, k: nat, i: nat)
    requires Inv(s) && Enabled(s, Set(k)) && i < |s.installers|
    ensures InstallerOk(Apply(s, Set(k)), i)
  {
    SetterStepSetters(s, k);
    assert SetterOk(s, k) && InstallerOk(s, i);
    if s.st.Ready? {
      assert SetterOk(s, s.st.who);
    }
  }

  lemma SwapTally(s: State, k: nat, i: nat)
    requires Inv(s) && Enabled(s, Set(k)) && s.setters[k].at.Swap? && i < |s.installers|
    ensures Tally(Apply(s, Set(k)), i) == Tally(s, i)
  {
    var s' := Apply(s, Set(k));
    assert SetterOk(s, k);
    SumConcat(s.unshared, s.shared, Is(i));
    SumConcat(s.unshared + s.shared, s.dependants, Is(i));
    SumUpdate(s.setters, k, s'.setters[k], InHands(i));
  }

  lemma SetterStepOnce(s: State, k: nat, i: nat)
    requires Inv(s) && Enabled(s, Set(k)) && i < |s.installers|
    ensures Once(Apply(s, Set(k)), i)
  {
    var s', me := Apply(s, Set(k)), s.setters[k];
    assert SetterOk(s, k) && Once(s, i);
    if me.at.Swap? {
      SwapTally(s, k, i);
    } else {
      SumUpdate(s.setters, k, s'.setters[k], InHands(i));
      if me.at.Deliver? && me.todo != [] {
        assert Sum(me.todo, Is(i)) == Is(i)(me.todo[0]) + Sum(me.todo[1..], Is(i));
      }
    }
  }

  lemma SetterStepKeepsInv(s: State, k: nat)
    requires Inv(s) && Enabled(s, Set(k))
    ensures Inv(Apply(s, Set(k)))
  {
    var s' := Apply(s, Set(k));
    SetterStepSetters(s, k);
    forall i: nat | i < |s'.installers|
      ensures InstallerOk(s', i) && Once(s', i)
    {
      SetterStepInstallers(s, k, i);
      SetterStepOnce(s, k, i);
    }
  }

  lemma InstallStepSetters(s: State, i: nat)
    requires Inv(s) && Enabled(s, Install(i))
    ensures var s' := Apply(s, Install(i));
      && (Taken(s') <==> Taken(s)) && (forall k: nat :: k < |s'.setters| ==> SetterOk(s', k))
      && (Taken(s') ==> s'.unshared == s'.shared == s'.dependants == [])
      && |s'.calls| == |s'.installers| == |s.installers| && (s'.st.Ready? ==> s'.st.who < |s'.setters|)
      && (s'.lck.Held? ==> s'.lck.who < |s'.setters|) && (s'.mtx.Held? ==> s'.mtx.who < |s'.installers|)
  {
    var s' := Apply(s, Install(i));
    assert InstallerOk(s, i);
    forall k: nat | k < |s'.setters|
      ensures SetterOk(s', k)
    {
      assert SetterOk(s, k);
    }
  }

  lemma InstallStepInstallers(s: State, i: nat, j: nat)
    requires Inv(s) && Enabled(s, Install(i)) && j < |s.installers|
    ensures InstallerOk(Apply(s, Install(i)), j)
  {
    InstallStepSetters(s, i);
    assert InstallerOk(s, i) && InstallerOk(s, j);
    if i == j {
      OwnStepOk(s, i);
    } else {
      assert OwnElements(s);
      OtherStepOk(s, i, j);
    }
  }

  lemma OwnStepOk(s: State, i: nat)
    requires Enabled(s, Install(i)) && InstallerOk(s, i) && (Taken(Apply(s, Install(i))) <==> Taken(s))
    ensures InstallerOk(Apply(s, Install(i)), i)
  {}

  lemma OtherStepOk(s: State, i: nat, j: nat)
    requires Enabled(s, Install(i)) && i != j && j < |s.installers| && InstallerOk(s, i) && InstallerOk(s, j)
    requires OwnElements(s) && (Taken(Apply(s, Install(i))) <==> Taken(s))
    ensures InstallerOk(Apply(s, Install(i)), j)
  {
    var was, other := s.installers[i], s.installers[j];
    assert !Taken(s) && Reserving(was) && Reserving(other) ==> was.idx != other.idx;
  }

  lemma InstallStepOnce(s: State, i: nat, j: nat)
    requires Inv(s) && Enabled(s, Install(i)) && j < |s.installers|
    ensures Once(Apply(s, Install(i)), j)
  {
    assert InstallerOk(s, i) && Once(s, j);
    if s.installers[i].at.Put? {
      PutTally(s, i, j);
    } else if s.installers[i].at.PutAt? {
      PutAtOnce(s, i, j);
    } else {
      NoPutOnce(s, i, j);
    }
  }

  lemma PutAtOnce(s: State, i: nat, j: nat)
    requires Enabled(s, Install(i)) && s.installers[i].at.PutAt? && j < |s.installers| && Once(s, j)
    requires s.installers[i].idx < |s.dependants| && s.dependants[s.installers[i].idx] == Noop
    ensures Once(Apply(s, Install(i)), j)
  {
    SumUpdate(s.dependants, s.installers[i].idx, Call(i), Is(j));
  }

  /** The steps of a registration that leave the lists alone. */
  lemma NoPutOnce(s: State, i: nat, j: nat)
    requires Enabled(s, Install(i)) && !s.installers[i].at.Put? && !s.installers[i].at.PutAt?
    requires j < |s.installers| && Once(s, j) && InstallerOk(s, i)
    ensures Once(Apply(s, Install(i)), j)
  {}

  /** The assertion of `install_callback`: there is no callback in the slot yet. */
  lemma SlotIsFree(s: State, i: nat)
    requires OneFuture(s.installers) && SlotOk(s) && i < |s.installers|
    requires s.installers[i].at.Put? && s.installers[i].kind.Unshared?
    ensures s.unshared == []
  {}

  lemma PutTally(s: State, i: nat, j: nat)
    requires Inv(s) && Enabled(s, Install(i)) && s.installers[i].at.Put? && j < |s.installers|
    ensures Tally(Apply(s, Install(i)), j) == Tally(s, j) + if j == i && !s.installers[i].kind.TwoPhase? then 1 else 0
  {
    if s.installers[i].kind.Unshared? {
      SlotIsFree(s, i);
    }
    PutTallyIn(s, i, j);
  }

  lemma PutTallyIn(s: State, i: nat, j: nat)
    requires Enabled(s, Install(i)) && s.installers[i].at.Put? && j < |s.installers|
    requires s.installers[i].kind.Unshared? ==> s.unshared == []
    ensures Tally(Apply(s, Install(i)), j) == Tally(s, j) + if j == i && !s.installers[i].kind.TwoPhase? then 1 else 0
  {
    match s.installers[i].kind
    case Unshared =>
      assert Sum([Call(i)], Is(j)) == Is(j)(Call(i));
    case Shared =>
      SumConcat([Call(i)], s.shared, Is(j));
      assert Sum([Call(i)], Is(j)) == Is(j)(Call(i));
    case Dependant => SumAppend(s.dependants, Call(i), Is(j));
    case TwoPhase => SumAppend(s.dependants, Noop, Is(j));
  }

  lemma InstallStepElements(s: State, i: nat)
    requires Inv(s) && Enabled(s, Install(i))
    ensures OwnElements(Apply(s, Install(i)))
  {
    var s' := Apply(s, Install(i));
    InstallStepSetters(s, i);
    assert InstallerOk(s, i);
    forall j: nat, l: nat | j < l < |s'.installers| && !Taken(s')
      ensures Reserving(s'.installers[j]) && Reserving(s'.installers[l]) ==>
        s'.installers[j].idx != s'.installers[l].idx
    {
      assert InstallerOk(s, j) && InstallerOk(s, l);
    }
  }

  lemma InstallStepSlot(s: State, i: nat)
    requires Inv(s) && Enabled(s, Install(i))
    ensures OneFuture(Apply(s, Install(i)).installers) && SlotOk(Apply(s, Install(i)))
  {
    if s.installers[i].at.Put? && s.installers[i].kind.Unshared? {
      assert Apply(s, Install(i)).unshared == [Call(i)];
    } else {
      assert Apply(s, Install(i)).unshared == s.unshared;
    }
    KindsStay(s, i);
  }

  lemma KindsStay(s: State, i: nat)
    requires Enabled(s, Install(i))
    ensures var s' := Apply(s, Install(i));
      && |s'.installers| == |s.installers|
      && forall j :: 0 <= j < |s.installers| ==>
           && s'.installers[j].kind == s.installers[j].kind
           && (s.installers[j].at.Installed? ==> s'.installers[j].at.Installed?)
  {}

  lemma InstallStepKeepsInv(s: State, i: nat)
    requires Inv(s) && Enabled(s, Install(i))
    ensures Inv(Apply(s, Install(i)))
  {
    var s' := Apply(s, Install(i));
    InstallStepSetters(s, i);
    InstallStepElements(s, i);
    InstallStepSlot(s, i);
    forall j: nat | j < |s'.installers|
      ensures InstallerOk(s', j) && Once(s', j)
    {
      InstallStepInstallers(s, i, j);
      InstallStepOnce(s, i, j);
    }
  }

  lemma StepKeepsInv(s: State, a: Action)
    requires Inv(s) && Enabled(s, a)
    ensures Inv(Apply(s, a))
  {
    match a
    case Set(k) => SetterStepKeepsInv(s, k);
    case Install(i) => InstallStepKeepsInv(s, i);
  }

  lemma {:induction false} InvAlways(b: seq<State>, n: nat)
    requires Behavior(b) && n < |b|
    ensures Inv(b[n])
  {
    if n == 0 {
      forall i: nat | i < |b[0].installers|
        ensures Once(b[0], i)
      {
        SumZero(b[0].setters, InHands(i));
      }
    } else {
      InvAlways(b, n - 1);
      assert StepAt(b, n - 1);
      var a :| Enabled(b[n - 1], a) && b[n] == Apply(b[n - 1], a);
      StepKeepsInv(b[n - 1], a);
    }
  }

  // ---------------------------------------------------------------- theorems

  lemma PartsOfTally(s: State, i: nat)
    requires i < |s.calls| && i < |s.installers|
    ensures 0 <= Sum(s.unshared, Is(i)) && 0 <= Sum(s.shared, Is(i)) && 0 <= Sum(s.dependants, Is(i))
    ensures 0 <= Sum(s.setters, InHands(i))
  {
    SumNonNegative(s.unshared, Is(i));
    SumNonNegative(s.shared, Is(i));
    SumNonNegative(s.dependants, Is(i));
    forall k | 0 <= k < |s.setters|
      ensures 0 <= InHands(i)(s.setters[k])
    {
      SumNonNegative(s.setters[k].todo, Is(i));
    }
    SumNonNegative(s.setters, InHands(i));
  }

  /** No function is called twice, none before the shared state is ready, none that was not installed. */
  lemma NeverTwiceNeverEarly(b: seq<State>, n: nat, i: nat)
    requires Behavior(b) && n < |b| && i < |b[n].installers| && i < |b[n].calls|
    ensures b[n].calls[i] <= 1
    ensures b[n].calls[i] == 1 ==> b[n].st.Ready? && b[n].installers[i].at.Installed?
  {
    InvAlways(b, n);
    assert Once(b[n], i);
    PartsOfTally(b[n], i);
  }

  /**
   * When the threads that complete the state and the threads that install have returned, every
   * function was called exactly once if the state is ready, and is still in the lists, once, if not.
   */
  lemma ExactlyOnce(b: seq<State>, n: nat, i: nat)
    requires Behavior(b) && n < |b| && i < |b[n].installers| && i < |b[n].calls|
    requires forall k :: 0 <= k < |b[n].setters| ==>
               b[n].setters[k].at.Outside? || b[n].setters[k].at.Finished? || b[n].setters[k].at.Threw?
    requires forall j :: 0 <= j < |b[n].installers| ==> b[n].installers[j].at.Installed?
    ensures if b[n].st.Ready? then b[n].calls[i] == 1
            else b[n].calls[i] == 0
                 && Sum(b[n].unshared, Is(i)) + Sum(b[n].shared, Is(i)) + Sum(b[n].dependants, Is(i)) == 1
  {
    var s := b[n];
    InvAlways(b, n);
    assert Once(s, i);
    PartsOfTally(s, i);
    forall k | 0 <= k < |s.setters|
      ensures InHands(i)(s.setters[k]) == 0
    {
      assert SetterOk(s, k);
    }
    SumZero(s.setters, InHands(i));
    if s.st.Ready? {
      assert SetterOk(s, s.st.who);
      assert Taken(s);
    }
  }

  lemma StepCompletes(s: State, a: Action)
    requires Inv(s) && Enabled(s, a)
    ensures var s' := Apply(s, a); |s'.setters| == |s.setters| && (s.st.Ready? ==> s'.st == s.st)
  {
    if a.Set? {
      assert SetterOk(s, a.k);
    }
  }

  /** At most one attempt completes the state; the exchange always finds it uninitialized, and the result stays. */
  lemma {:induction false} CompletedOnce(b: seq<State>, n: nat, m: nat, k: nat)
    requires Behavior(b) && n <= m < |b| && k < |b[n].setters|
    ensures |b[m].setters| == |b[n].setters|
    ensures b[n].st.Ready? ==> b[m].st == b[n].st
    ensures b[n].setters[k].at.Exchange? ==> b[n].st.Uninitialized?
    ensures b[n].setters[k].at.Finished? ==> b[n].st == Ready(k)
    decreases m - n
  {
    InvAlways(b, n);
    assert SetterOk(b[n], k);
    if n < m {
      assert StepAt(b, n);
      var a :| Enabled(b[n], a) && b[n + 1] == Apply(b[n], a);
      StepCompletes(b[n], a);
      CompletedOnce(b, n + 1, m, k);
    }
  }

  /** No callback is ever overwritten in `ready_cb_`: its slot is free whenever one is stored there. */
  lemma NoCallbackIsOverwritten(b: seq<State>, n: nat, i: nat)
    requires Behavior(b) && n < |b| && i < |b[n].installers|
    requires b[n].installers[i].at.Put? && b[n].installers[i].kind.Unshared?
    ensures b[n].unshared == []
  {
    InvAlways(b, n);
    SlotIsFree(b[n], i);
  }

  /** The element that a two-phase registration reserved is there, and still `noop_dependant`, when it is filled. */
  lemma ReservedElementIsThere(b: seq<State>, n: nat, i: nat)
    requires Behavior(b) && n < |b| && i < |b[n].installers| && b[n].installers[i].at.PutAt?
    ensures b[n].installers[i].idx < |b[n].dependants| && b[n].dependants[b[n].installers[i].idx] == Noop
  {
    InvAlways(b, n);
    assert InstallerOk(b[n], i);
  }

  // ---------------------------------------------------------------- every run ends

  /** How far a thread is from its end. */
  function SetterLeft(): Setter -> int {
    (me: Setter) =>
      |me.todo| + match me.at
                  case Outside => 8 case Lock => 7 case Check => 6 case Exchange => 5 case Unlock => 4
                  case Swap => 3 case Deliver => 2 case Throw => 1 case Finished => 0 case Threw => 0
  }

  function InstallerLeft(): Installer -> int {
    (me: Installer) =>
      match me.at
      case Before => 9 case Look => 8 case Put => 7 case Between => 5 case LookAgain => 4 case PutAt => 3
      case CallSelf => 1 case Installed => 0
  }

  /** The steps that are left at most: those of the threads, and the calls of what is in the lists. */
  function StepsLeft(s: State): int {
    Sum(s.setters, SetterLeft()) + Sum(s.installers, InstallerLeft()) + |s.unshared| + |s.shared| + |s.dependants|
  }

  lemma StepsLeftNatural(s: State)
    ensures 0 <= StepsLeft(s)
  {
    SumNonNegative(s.setters, SetterLeft());
    SumNonNegative(s.installers, InstallerLeft());
  }

  lemma SetterStepLowersLeft(s: State, k: nat)
    requires Enabled(s, Set(k))
    ensures StepsLeft(Apply(s, Set(k))) < StepsLeft(s)
  {
    SumUpdate(s.setters, k, Apply(s, Set(k)).setters[k], SetterLeft());
  }

  /** What a registration puts into the lists it has less left to do. */
  lemma InstallStepOnLists(s: State, i: nat)
    requires Enabled(s, Install(i))
    ensures var s' := Apply(s, Install(i));
      && s'.setters == s.setters && |s'.installers| == |s.installers|
      && s'.installers == s.installers[i := s'.installers[i]]
      && |s'.unshared| + |s'.shared| + |s'.dependants| + InstallerLeft()(s'.installers[i])
         < |s.unshared| + |s.shared| + |s.dependants| + InstallerLeft()(s.installers[i])
  {
    match s.installers[i].at
    case Put =>
    case PutAt =>
    case _ =>
  }

  lemma InstallStepLowersLeft(s: State, s': State, i: nat)
    requires i < |s.installers| == |s'.installers| && s'.setters == s.setters
    requires s'.installers == s.installers[i := s'.installers[i]]
    requires |s'.unshared| + |s'.shared| + |s'.dependants| + InstallerLeft()(s'.installers[i])
           < |s.unshared| + |s.shared| + |s.dependants| + InstallerLeft()(s.installers[i])
    ensures StepsLeft(s') < StepsLeft(s)
  {
    SumUpdate(s.installers, i, s'.installers[i], InstallerLeft());
  }

  lemma NextLowersLeft(b: seq<State>, n: nat)
    requires Behavior(b) && n + 1 < |b|
    ensures StepsLeft(b[n + 1]) < StepsLeft(b[n])
  {
    assert StepAt(b, n);
    var a :| Enabled(b[n], a) && b[n + 1] == Apply(b[n], a);
    match a
    case Set(k) => SetterStepLowersLeft(b[n], k);
    case Install(i) =>
      InstallStepOnLists(b[n], i);
      InstallStepLowersLeft(b[n], b[n + 1], i);
  }

  /** No run is longer than what there was to do at its start: every run comes to an end. */
  lemma {:induction false} RunsAreFinite(b: seq<State>, n: nat)
    requires Behavior(b) && n < |b|
    ensures 0 <= StepsLeft(b[n]) && n + StepsLeft(b[n]) <= StepsLeft(b[0])
  {
    StepsLeftNatural(b[n]);
    if n > 0 {
      RunsAreFinite(b, n - 1);
      NextLowersLeft(b, n - 1);
    }
  }

  /** Nothing can go on any more. */
  ghost predicate AtRest(s: State) { forall a :: !Enabled(s, a) }

  /** No deadlock: whoever waits for a lock waits for a thread that can go on. */
  lemma HoldersGoOn(s: State)
    requires Inv(s)
    ensures s.mtx.Held? ==> Enabled(s, Install(s.mtx.who))
    ensures s.lck.Held? ==> Enabled(s, Set(s.lck.who))
  {
    assert s.mtx.Held? ==> InstallerOk(s, s.mtx.who);
    assert s.lck.Held? ==> SetterOk(s, s.lck.who);
  }

  lemma AllReturned(s: State)
    requires Inv(s) && AtRest(s)
    ensures forall k: nat :: k < |s.setters| ==> s.setters[k].at.Finished? || s.setters[k].at.Threw?
    ensures forall i: nat :: i < |s.installers| ==> s.installers[i].at.Installed?
  {
    HoldersGoOn(s);
    forall k: nat | k < |s.setters|
      ensures s.setters[k].at.Finished? || s.setters[k].at.Threw?
    {
      assert !Enabled(s, Set(k));
    }
    forall i: nat | i < |s.installers|
      ensures s.installers[i].at.Installed?
    {
      assert InstallerOk(s, i) && !Enabled(s, Install(i));
    }
  }

  predicate GaveUp(s: State, k: nat) {
    k < |s.setters| && (s.setters[k].at.Throw? || s.setters[k].at.Threw?)
  }

  lemma StepGivesUp(s: State, a: Action, k: nat)
    requires Enabled(s, a) && k < |s.setters| && GaveUp(Apply(s, a), k) && SetterOk(s, k)
    ensures GaveUp(s, k) || (s.st.Ready? && s.st.who != k)
  {}

  lemma GivesUpNow(b: seq<State>, n: nat, k: nat)
    requires Behavior(b) && n + 1 < |b| && GaveUp(b[n + 1], k)
    ensures GaveUp(b[n], k) || (b[n].st.Ready? && b[n].st.who != k)
    ensures b[n].st.Ready? ==> b[n + 1].st == b[n].st
  {
    InvAlways(b, n);
    assert StepAt(b, n);
    var a :| Enabled(b[n], a) && b[n + 1] == Apply(b[n], a);
    StepCompletes(b[n], a);
    StepGivesUp(b[n], a, k);
  }

  /** Somebody who tried to complete the state gave up only because somebody else had. */
  lemma {:induction false} GivesUpForAnother(b: seq<State>, n: nat, k: nat)
    requires Behavior(b) && n < |b| && GaveUp(b[n], k)
    ensures b[n].st.Ready? && b[n].st.who != k
  {
    assert n > 0;
    GivesUpNow(b, n - 1, k);
    if GaveUp(b[n - 1], k) {
      GivesUpForAnother(b, n - 1, k);
    }
  }

  /**
   * In the end, which every run comes to, every function was called exactly once, provided that
   * somebody tries to complete the state at all: one of them has, and all others got the exception.
   */
  lemma EverythingIsCalled(b: seq<State>, i: nat)
    requires Behavior(b) && AtRest(b[|b| - 1]) && b[0].setters != []
    requires var s := b[|b| - 1]; i < |s.installers| && i < |s.calls|
    ensures var s := b[|b| - 1];
      && s.st.Ready? && s.st.who < |s.setters| && s.installers[i].at.Installed? && s.calls[i] == 1
      && forall k: nat :: k < |s.setters| ==>
           if k == s.st.who then s.setters[k].at.Finished? else s.setters[k].at.Threw?
  {
    var n := |b| - 1;
    var s := b[n];
    InvAlways(b, n);
    AllReturned(s);
    CompletedOnce(b, 0, n, 0);
    assert SetterOk(s, 0);
    if s.setters[0].at.Threw? {
      GivesUpForAnother(b, n, 0);
    }
    forall k: nat | k < |s.setters|
      ensures if k == s.st.who then s.setters[k].at.Finished? else s.setters[k].at.Threw?
    {
      assert SetterOk(s, k);
    }
    ExactlyOnce(b, n, i);
  }
}
