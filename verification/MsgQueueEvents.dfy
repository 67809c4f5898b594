/**
 * Event firing of a message queue: any number of threads enqueue, dequeue, install and clear the
 * callback, also from inside a running callback; one step per atomic operation or locked block.
 */
module MsgQueueEvents {
  import opened SeqSum

  /** `m_state`. */
  datatype Status = Idle | Busy | Again

  /** Where a thread is; callbacks are numbers, 0 is none. */
  datatype Stage =
    | Outside
    | CheckEmpty          // `callback(mq, fn)`: fire if there are messages
    | Fire                // _fire: exchange the state for AGAIN
    | SetBusy             // it was IDLE: force the state to BUSY
    | TakeEvent           // _fire_event: take m_ev out, under the mutex
    | RunEvent(tmp: nat)  // run it, without the mutex
    | PutBack(tmp: nat)   // put it back, unless it was replaced meanwhile, under the mutex
    | TryIdle             // BUSY -> IDLE, or go round again

  /**
   * The fields from `now` on are auxiliary: the number of steps so far, and the step numbers of the
   * last `_fire`, the last start of an event with the callback `startedWith` it took, the last
   * message put in, and the last change of the callback, to `last`.
   */
  datatype State = State(
    st: Status, ev: nat, restore: bool, size: nat, threads: seq<Stage>,
    now: nat, fired: nat, started: nat, startedWith: nat, enqueued: nat, installed: nat, last: nat)

  datatype Action =
    | Enqueue(t: nat)                // put a message in, then _fire
    | Dequeue                        // take a message out
    | Install(t: nat, fn: nat)       // callback(mq, fn)
    | Clear                          // callback(mq, nullptr)
    | Step(t: nat)                   // the next operation of thread `t`

  predicate Enabled(s: State, a: Action) {
    match a
    case Enqueue(t) => t < |s.threads| && s.threads[t].Outside?
    case Dequeue => 0 < s.size
    case Install(t, fn) => t < |s.threads| && s.threads[t].Outside?
    case Clear => true
    case Step(t) => t < |s.threads| && !s.threads[t].Outside?
  }

  function Advance(s: State, t: nat): State
    requires Enabled(s, Step(t))
  {
    match s.threads[t]
    case Outside => s
    case CheckEmpty => s.(threads := s.threads[t := if s.size == 0 then Outside else Fire])
    case Fire => s.(st := Again, fired := s.now, threads := s.threads[t := if s.st.Idle? then SetBusy else Outside])
    case SetBusy => s.(st := Busy, threads := s.threads[t := TakeEvent])
    case TakeEvent =>
      s.(ev := 0, restore := s.restore || s.ev != 0, started := s.now, startedWith := s.ev,
         threads := s.threads[t := if s.ev == 0 then TryIdle else RunEvent(s.ev)])
    case RunEvent(tmp) => s.(threads := s.threads[t := PutBack(tmp)])
    case PutBack(tmp) =>
      s.(ev := if s.restore then tmp else s.ev, restore := false, threads := s.threads[t := TryIdle])
    case TryIdle =>
      if s.st.Busy? then s.(st := Idle, threads := s.threads[t := Outside]) else s.(threads := s.threads[t := SetBusy])
  }

  function Apply(s: State, a: Action): State
    requires Enabled(s, a)
  {
    var s' :=
      match a
      case Enqueue(t) => s.(size := s.size + 1, enqueued := s.now, threads := s.threads[t := Fire])
      case Dequeue => s.(size := s.size - 1)
      case Install(t, fn) =>
        s.(ev := fn, restore := false, st := if s.restore then Again else s.st,
           installed := s.now, last := fn, threads := s.threads[t := CheckEmpty])
      case Clear => s.(ev := 0, restore := false, installed := s.now, last := 0)
      case Step(t) => Advance(s, t);
    s'.(now := s.now + 1)
  }

  /** No callback, no message, nobody in a call; the steps are numbered from 1. */
  predicate Init(s: State) {
    && s == State(Idle, 0, false, 0, s.threads, 1, 0, 0, 0, 0, 0, 0)
    && forall t :: 0 <= t < |s.threads| ==> s.threads[t].Outside?
  }

  ghost predicate StepAt(b: seq<State>, k: nat)
    requires k + 1 < |b|
  {
    exists a :: Enabled(b[k], a) && b[k + 1] == Apply(b[k], a)
  }

  ghost predicate Behavior(b: seq<State>) {
    b != [] && Init(b[0]) && forall k :: 0 <= k < |b| - 1 ==> StepAt(b, k)
  }

  // ---------------------------------------------------------------- invariant

  /** The thread runs the event loop of `_fire`. */
  predicate Looping(at: Stage) {
    at.SetBusy? || at.TakeEvent? || at.RunEvent? || at.PutBack? || at.TryIdle?
  }

  function Loops(): Stage -> int { (at: Stage) => if Looping(at) then 1 else 0 }

  /** The thread is between taking the callback out and putting it back. */
  function Borrows(): Stage -> int { (at: Stage) => if at.RunEvent? || at.PutBack? then 1 else 0 }

  predicate ThreadOk(s: State, at: Stage) {
    && (at.SetBusy? ==> s.st.Again?)
    && ((at.RunEvent? || at.PutBack? || at.TryIdle?) && s.st.Busy? ==> s.fired <= s.started)
    && (at.RunEvent? || at.PutBack? ==> at.tmp != 0 && (s.restore ==> at.tmp == s.last))
  }

  /** A thread will fire, or look whether it has to. */
  predicate Announcing(at: Stage) { at.Fire? || at.CheckEmpty? }

  ghost predicate Inv(s: State) {
    && Sum(s.threads, Loops()) == (if s.st.Idle? then 0 else 1)
    && (s.st.Idle? ==> s.fired <= s.started)
    && (s.restore ==> 0 < Sum(s.threads, Borrows()))
    && (!s.restore ==> s.ev == s.last)
    && (forall t: nat :: t < |s.threads| ==> ThreadOk(s, s.threads[t]))
    && (s.installed < s.started ==> s.startedWith == s.last)
    && s.fired < s.now && s.started < s.now && s.enqueued < s.now && s.installed < s.now
    && (0 < s.started ==> s.started != s.enqueued && s.started != s.installed)
    && (0 < s.size ==> 0 < s.enqueued) && (s.last != 0 ==> 0 < s.installed)
    && (s.last != 0 && 0 < s.size && (s.started < s.enqueued || s.started < s.installed) ==>
          s.started < s.fired || exists t: nat :: t < |s.threads| && Announcing(s.threads[t]))
  }

  // ---------------------------------------------------------------- preservation

  /** The thread that loops is the only one, and the state is not IDLE. */
  lemma OnlyLooper(s: State, t: nat)
    requires Inv(s) && t < |s.threads| && Looping(s.threads[t])
    ensures !s.st.Idle?
    ensures forall u: nat :: u < |s.threads| && u != t ==> !Looping(s.threads[u])
    ensures s.restore ==> s.threads[t].RunEvent? || s.threads[t].PutBack?
  {
    SumDominates(s.threads, t, Loops());
    forall u: nat | u < |s.threads| && u != t
      ensures !Looping(s.threads[u])
    {
      if t < u {
        SumDominatesPair(s.threads, t, u, Loops());
      } else {
        SumDominatesPair(s.threads, u, t, Loops());
      }
    }
    if s.restore && !s.threads[t].RunEvent? && !s.threads[t].PutBack? {
      SumZero(s.threads, Borrows());
    }
  }

  lemma NobodyLoops(s: State)
    requires Inv(s) && s.st.Idle?
    ensures forall u: nat :: u < |s.threads| ==> !Looping(s.threads[u])
    ensures !s.restore
  {
    forall u: nat | u < |s.threads|
      ensures !Looping(s.threads[u])
    {
      SumDominates(s.threads, u, Loops());
    }
    if s.restore {
      SumZero(s.threads, Borrows());
    }
  }

  lemma SumsOfStep(s: State, t: nat, at: Stage)
    requires t < |s.threads|
    ensures Sum(s.threads[t := at], Loops()) == Sum(s.threads, Loops()) - Loops()(s.threads[t]) + Loops()(at)
    ensures Sum(s.threads[t := at], Borrows()) == Sum(s.threads, Borrows()) - Borrows()(s.threads[t]) + Borrows()(at)
  {
    SumUpdate(s.threads, t, at, Loops());
    SumUpdate(s.threads, t, at, Borrows());
  }

  /** The last clause of the invariant, for a step of a thread that is not announcing, or goes on announcing. */
  lemma StillAnnounced(s: State, s': State, t: nat)
    requires Inv(s) && t < |s.threads| && |s'.threads| == |s.threads| && s'.threads == s.threads[t := s'.threads[t]]
    requires s.last != 0 && 0 < s.size && (s.started < s.enqueued || s.started < s.installed)
    requires s'.started == s.started && s.fired <= s'.fired
    requires Announcing(s.threads[t]) ==> Announcing(s'.threads[t]) || s'.started < s'.fired
    ensures s'.started < s'.fired || exists u: nat :: u < |s'.threads| && Announcing(s'.threads[u])
  {
    if s.started >= s.fired {
      var u: nat :| u < |s.threads| && Announcing(s.threads[u]);
      assert u != t ==> Announcing(s'.threads[u]);
    }
  }

  lemma LoopKeepsInv(s: State, t: nat)
    requires Inv(s) && Enabled(s, Step(t)) && Looping(s.threads[t])
    ensures Inv(Apply(s, Step(t)))
  {
    var s' := Apply(s, Step(t));
    OnlyLooper(s, t);
    assert ThreadOk(s, s.threads[t]);
    SumsOfStep(s, t, s'.threads[t]);
    SumNonNegative(s.threads, Borrows());
    forall u: nat | u < |s'.threads|
      ensures ThreadOk(s', s'.threads[u])
    {
      assert ThreadOk(s, s.threads[u]);
    }
    if s'.last != 0 && 0 < s'.size && (s'.started < s'.enqueued || s'.started < s'.installed) {
      StillAnnounced(s, s', t);
    }
  }

  lemma AnnounceKeepsInv(s: State, t: nat)
    requires Inv(s) && Enabled(s, Step(t)) && Announcing(s.threads[t])
    ensures Inv(Apply(s, Step(t)))
  {
    var s' := Apply(s, Step(t));
    if s.st.Idle? {
      NobodyLoops(s);
    }
    SumsOfStep(s, t, s'.threads[t]);
    forall u: nat | u < |s'.threads|
      ensures ThreadOk(s', s'.threads[u])
    {
      assert ThreadOk(s, s.threads[u]);
    }
    if s'.last != 0 && 0 < s'.size && (s'.started < s'.enqueued || s'.started < s'.installed) {
      StillAnnounced(s, s', t);
    }
  }

  lemma CallKeepsInv(s: State, a: Action)
    requires Inv(s) && Enabled(s, a) && (a.Enqueue? || a.Install?)
    ensures Inv(Apply(s, a))
  {
    var s', t := Apply(s, a), a.t;
    SumsOfStep(s, t, s'.threads[t]);
    if s.st.Idle? {
      NobodyLoops(s);
    }
    forall u: nat | u < |s'.threads|
      ensures ThreadOk(s', s'.threads[u])
    {
      assert ThreadOk(s, s.threads[u]);
    }
    assert Announcing(s'.threads[t]);
  }

  lemma OtherKeepsInv(s: State, a: Action)
    requires Inv(s) && Enabled(s, a) && (a.Dequeue? || a.Clear?)
    ensures Inv(Apply(s, a))
  {
    var s' := Apply(s, a);
    forall u: nat | u < |s'.threads|
      ensures ThreadOk(s', s'.threads[u])
    {
      assert ThreadOk(s, s.threads[u]);
    }
    if s'.last != 0 && 0 < s'.size && (s'.started < s'.enqueued || s'.started < s'.installed) && s.started >= s.fired {
      var u: nat :| u < |s.threads| && Announcing(s.threads[u]);
      assert Announcing(s'.threads[u]);
    }
  }

  lemma StepKeepsInv(s: State, a: Action)
    requires Inv(s) && Enabled(s, a)
    ensures Inv(Apply(s, a))
  {
    match a
    case Enqueue(t) => CallKeepsInv(s, a);
    case Dequeue => OtherKeepsInv(s, a);
    case Install(t, fn) => CallKeepsInv(s, a);
    case Clear => OtherKeepsInv(s, a);
    case Step(t) =>
      if Looping(s.threads[t]) {
        LoopKeepsInv(s, t);
      } else {
        AnnounceKeepsInv(s, t);
      }
  }

  lemma {:induction false} InvAlways(b: seq<State>, k: nat)
    requires Behavior(b) && k < |b|
    ensures Inv(b[k])
  {
    if k == 0 {
      SumZero(b[0].threads, Loops());
    } else {
      InvAlways(b, k - 1);
      assert StepAt(b, k - 1);
      var a :| Enabled(b[k - 1], a) && b[k] == Apply(b[k - 1], a);
      StepKeepsInv(b[k - 1], a);
    }
  }

  // ---------------------------------------------------------------- theorems

  /** At most one thread is ever inside the event loop, so `_fire_event` never runs twice at the same time. */
  lemma OneEventAtATime(b: seq<State>, k: nat, t: nat, u: nat)
    requires Behavior(b) && k < |b| && t < u < |b[k].threads|
    ensures !(Looping(b[k].threads[t]) && Looping(b[k].threads[u]))
  {
    InvAlways(b, k);
    if Looping(b[k].threads[t]) {
      OnlyLooper(b[k], t);
    }
  }

  /**
   * Whenever the state is IDLE, an event started after the last
   * `_fire`, and so after every one, and nobody is in the loop.
   */
  lemma IdleMeansServed(b: seq<State>, k: nat)
    requires Behavior(b) && k < |b| && b[k].st.Idle?
    ensures b[k].fired <= b[k].started
    ensures forall t: nat :: t < |b[k].threads| ==> !Looping(b[k].threads[t])
  {
    InvAlways(b, k);
    NobodyLoops(b[k]);
  }

  /**
   * The effective callback, the one taken out while it is to be put back and `m_ev` otherwise, is
   * always the last one installed, or none after it was cleared; also when that happened from
   * inside the running callback.
   */
  lemma LastInstalledWins(b: seq<State>, k: nat)
    requires Behavior(b) && k < |b|
    ensures !b[k].restore ==> b[k].ev == b[k].last
    ensures b[k].restore ==>
              exists t: nat :: t < |b[k].threads| && (b[k].threads[t].RunEvent? || b[k].threads[t].PutBack?)
                               && b[k].threads[t].tmp == b[k].last
  {
    var s := b[k];
    InvAlways(b, k);
    if s.restore {
      if forall t: nat :: t < |s.threads| ==> !(s.threads[t].RunEvent? || s.threads[t].PutBack?) {
        SumZero(s.threads, Borrows());
      }
      var t: nat :| t < |s.threads| && (s.threads[t].RunEvent? || s.threads[t].PutBack?);
      assert ThreadOk(s, s.threads[t]);
    }
  }

  /**
   * No lost event: when every thread has returned, a callback is installed and messages are
   * waiting, then the last event that started was that callback's, and it started after the last
   * message came in and after the callback was installed.
   */
  lemma NoLostEvent(b: seq<State>, k: nat)
    requires Behavior(b) && k < |b| && b[k].last != 0 && 0 < b[k].size
    requires forall t: nat :: t < |b[k].threads| ==> b[k].threads[t].Outside?
    ensures b[k].ev == b[k].last && b[k].startedWith == b[k].last
    ensures b[k].enqueued < b[k].started && b[k].installed < b[k].started
  {
    var s := b[k];
    InvAlways(b, k);
    SumZero(s.threads, Loops());
    NobodyLoops(s);
  }

  // ---------------------------------------------------------------- left alone

  /** Thread `t` makes `n` steps in a row. */
  ghost predicate Advances(s: State, t: nat, n: nat, s': State)
    decreases n
  {
    if n == 0 then s' == s else Enabled(s, Step(t)) && Advances(Apply(s, Step(t)), t, n - 1, s')
  }

  /** Thread `t` gets from `s` to `s'` by steps of its own. */
  ghost predicate Gets(s: State, t: nat, s': State) { exists n: nat :: Advances(s, t, n, s') }

  function At(s: State, t: nat, at: Stage): State
    requires t < |s.threads|
  {
    s.(threads := s.threads[t := at])
  }

  lemma Then(s: State, t: nat, s1: State, s': State)
    requires Enabled(s, Step(t)) && Apply(s, Step(t)) == s1 && (s1 == s' || Gets(s1, t, s'))
    ensures Gets(s, t, s')
  {
    if s1 == s' {
      assert Advances(s1, t, 0, s');
    }
    var n: nat :| Advances(s1, t, n, s');
    assert Advances(s, t, n + 1, s');
  }

  /** What is left of a `_fire` that found the queue idle at `s`: one event, and the callback is back in its place. */
  function Served(s: State, t: nat): State
    requires t < |s.threads|
  {
    var n := if s.ev == 0 then 3 else 5;
    At(s.(st := Idle, now := s.now + n, started := s.now + 1, startedWith := s.ev), t, Outside)
  }

  /** One round of the event loop starts one event, with the callback that is installed, and leaves if nothing fired. */
  lemma RunsOneEvent(s: State, t: nat)
    requires t < |s.threads| && s.threads[t].SetBusy? && !s.restore
    ensures Gets(s, t, Served(s, t))
  {
    var end := Served(s, t);
    var s1 := At(s.(st := Busy, now := s.now + 1), t, TakeEvent);
    if s.ev == 0 {
      var s2 := At(s1.(now := s.now + 2, started := s.now + 1, startedWith := 0), t, TryIdle);
      Then(s2, t, end, end);
      Then(s1, t, s2, end);
      Then(s, t, s1, end);
    } else {
      RunsCallback(s1, t, end);
      Then(s, t, s1, end);
    }
  }

  lemma RunsCallback(s: State, t: nat, end: State)
    requires t < |s.threads| && s.threads[t].TakeEvent? && !s.restore && s.ev != 0 && s.st.Busy?
    requires end == At(s.(st := Idle, now := s.now + 4, started := s.now, startedWith := s.ev), t, Outside)
    ensures Gets(s, t, end)
  {
    var s1 := At(s.(ev := 0, restore := true, now := s.now + 1, started := s.now, startedWith := s.ev), t,
                 RunEvent(s.ev));
    var s2 := At(s1.(now := s.now + 2), t, PutBack(s.ev));
    var s3 := At(s2.(ev := s.ev, restore := false, now := s.now + 3), t, TryIdle);
    Then(s3, t, end, end);
    Then(s2, t, s3, end);
    Then(s1, t, s2, end);
    Then(s, t, s1, end);
  }

  /** `_fire` on an idle queue: this thread runs one event. */
  lemma Fires(s: State, t: nat)
    requires t < |s.threads| && s.threads[t].Fire? && !s.restore && s.st.Idle?
    ensures Gets(s, t, Served(s.(now := s.now + 1, fired := s.now), t))
  {
    var s1 := At(s.(st := Again, now := s.now + 1, fired := s.now), t, SetBusy);
    RunsOneEvent(s1, t);
    assert Served(s1, t) == Served(s.(now := s.now + 1, fired := s.now), t);
    Then(s, t, s1, Served(s1, t));
  }

  /** `_fire` on another queue is done: the thread in the loop will run one more event. */
  lemma LeavesItToTheLoop(s: State, t: nat)
    requires t < |s.threads| && s.threads[t].Fire? && !s.st.Idle?
    ensures Gets(s, t, At(s.(st := Again, now := s.now + 1, fired := s.now), t, Outside))
  {
    var end := At(s.(st := Again, now := s.now + 1, fired := s.now), t, Outside);
    Then(s, t, end, end);
  }

  /** The thread in the loop goes round once more when there was a `_fire` meanwhile. */
  lemma GoesRoundAgain(s: State, t: nat)
    requires t < |s.threads| && s.threads[t].TryIdle? && s.st.Again? && !s.restore
    ensures Gets(s, t, Served(s.(now := s.now + 1), t))
  {
    var s1 := At(s.(now := s.now + 1), t, SetBusy);
    RunsOneEvent(s1, t);
    assert Served(s1, t) == Served(s.(now := s.now + 1), t);
    Then(s, t, s1, Served(s1, t));
  }

  /** A message put into an idle queue starts one event. */
  lemma Enqueues(s: State, t: nat)
    requires Enabled(s, Enqueue(t)) && !s.restore && s.st.Idle?
    ensures Gets(Apply(s, Enqueue(t)), t,
                 Served(s.(size := s.size + 1, enqueued := s.now, now := s.now + 2, fired := s.now + 1), t))
  {
    var s1 := Apply(s, Enqueue(t));
    Fires(s1, t);
    assert Served(s1.(now := s1.now + 1, fired := s1.now), t)
        == Served(s.(size := s.size + 1, enqueued := s.now, now := s.now + 2, fired := s.now + 1), t);
  }

  /** A callback that is installed on an idle queue is called if there are messages, and not otherwise. */
  lemma Installs(s: State, t: nat, fn: nat)
    requires Enabled(s, Install(t, fn)) && !s.restore && s.st.Idle?
    ensures var s1, s' := Apply(s, Install(t, fn)), s.(ev := fn, last := fn, installed := s.now);
      if s.size == 0 then Gets(s1, t, s'.(now := s.now + 2))
      else Gets(s1, t, Served(s'.(now := s.now + 3, fired := s.now + 2), t))
  {
    var s1, s' := Apply(s, Install(t, fn)), s.(ev := fn, last := fn, installed := s.now);
    if s.size == 0 {
      var end := s'.(now := s.now + 2);
      Then(s1, t, end, end);
    } else {
      var s2 := At(s'.(now := s.now + 2), t, Fire);
      Fires(s2, t);
      assert Served(s2.(now := s2.now + 1, fired := s2.now), t)
          == Served(s'.(now := s.now + 3, fired := s.now + 2), t);
      Then(s1, t, s2, Served(s2.(now := s2.now + 1, fired := s2.now), t));
    }
  }

  /**
   * A callback that is replaced while it runs is not put back, and the thread that runs it starts one more
   * event with the new one, whether there are messages or not.
   */
  lemma ReplacedWhileRunning(s: State, t: nat, u: nat, fn: nat)
    requires Enabled(s, Install(t, fn)) && u < |s.threads| && s.threads[u].RunEvent? && s.restore
    ensures var s' := s.(ev := fn, restore := false, last := fn, installed := s.now, now := s.now + 4);
      Gets(Apply(s, Install(t, fn)), u, Served(At(s', t, CheckEmpty), u))
  {
    var s0 := Apply(s, Install(t, fn));
    var s1 := At(s0.(now := s.now + 2), u, PutBack(s.threads[u].tmp));
    var s2 := At(s0.(now := s.now + 3), u, TryIdle);
    GoesRoundAgain(s2, u);
    var end := Served(s2.(now := s2.now + 1), u);
    Then(s1, u, s2, end);
    Then(s0, u, s1, end);
    assert end == Served(At(s.(ev := fn, restore := false, last := fn, installed := s.now, now := s.now + 4),
                            t, CheckEmpty), u);
  }

  /** The size counts the messages, which the events leave alone, and the callback can be cleared at any time. */
  lemma MessagesAreCounted(b: seq<State>, k: nat, a: Action)
    requires Behavior(b) && k < |b| && Enabled(b[k], a)
    ensures Apply(b[k], a).size == b[k].size + (if a.Enqueue? then 1 else 0) - (if a.Dequeue? then 1 else 0)
    ensures Enabled(b[k], Clear) && Apply(b[k], Clear).last == 0 && (0 < b[k].size ==> Enabled(b[k], Dequeue))
  {}
}
