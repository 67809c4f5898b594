/**
 * Sleeping and waking the workers of a threadpool of fixed size: one step per atomic operation,
 * list operation, or operation on a worker's mutex, interleaved over any number of threads.
 */
module ThreadpoolWakeup {
  import opened Queues

  datatype Status = Busy | SleepTest | Sleep

  /** Where a worker is; each stage of `do_sleep` names the operation it is about to perform. */
  datatype Stage =
    | Running     // outside `do_sleep`: performing work
    | Linking     // put itself at the front of the idle list
    | Testing     // `has_work`
    | Reverting   // there is work: SLEEP_TEST -> BUSY
    | Locking     // there is none: lock the sleep mutex
    | Committing  // SLEEP_TEST -> SLEEP
    | Resting     // wait on the condition variable, which gives the mutex up
    | Waiting     // waiting
    | Relocking   // notified, or woken spuriously: lock the mutex again
    | Checking    // load the state; still SLEEP means wait again
    | Unlinking   // take itself off the idle list

  datatype Owner = Free | Self | Other(k: nat)

  datatype Worker = Worker(st: Status, at: Stage, mutex: Owner)

  /** Where a thread is inside `impl::wakeup`; the worker it popped is `i`. */
  datatype Progress =
    | Outside
    | Popping                 // pop_front, or return when `c` has reached `n`
    | FromTest(i: nat)        // SLEEP_TEST -> BUSY
    | FromSleep(i: nat)       // SLEEP -> BUSY
    | NotifyLock(i: nat)      // lock the worker's sleep mutex
    | NotifyLocked(i: nat)    // notify, and unlock

  /** A thread that calls `wakeup(n)` and has woken `c` workers so far. */
  datatype Waker = Waker(at: Progress, c: nat, n: nat)

  datatype State = State(workers: seq<Worker>, idle: seq<nat>, pending: nat, wakers: seq<Waker>) {
    predicate Asleep(w: nat)
      requires w < |workers|
    {
      workers[w].st.Sleep? || (workers[w].st.SleepTest? && (workers[w].at.Locking? || workers[w].at.Committing?))
    }
  }

  datatype Action =
    | Work(w: nat)                 // do_work found a unit of work
    | Idle(w: nat)                 // do_work found none: BUSY -> SLEEP_TEST
    | Spurious(w: nat)             // a wait returns without a notification
    | Advance(w: nat)              // the next operation of `do_sleep`
    | Publish(k: nat, n: nat)      // make one unit of work available, then call wakeup(n)
    | Call(k: nat, n: nat)         // call wakeup(n)
    | Wake(k: nat)                 // the next operation of `wakeup`

  predicate Enabled(s: State, a: Action) {
    match a
    case Work(w) => w < |s.workers| && s.workers[w].at.Running? && 0 < s.pending
    case Idle(w) => w < |s.workers| && s.workers[w].at.Running?
    case Spurious(w) => w < |s.workers| && s.workers[w].at.Waiting?
    case Advance(w) =>
      && w < |s.workers| && !s.workers[w].at.Running? && !s.workers[w].at.Waiting?
      && (s.workers[w].at.Locking? || s.workers[w].at.Relocking? ==> s.workers[w].mutex.Free?)
    case Publish(k, n) => k < |s.wakers| && s.wakers[k].at.Outside? && 0 < n
    case Call(k, n) => k < |s.wakers| && s.wakers[k].at.Outside?
    case Wake(k) =>
      && k < |s.wakers| && !s.wakers[k].at.Outside?
      && (!s.wakers[k].at.Popping? ==> s.wakers[k].at.i < |s.workers|)
      && (s.wakers[k].at.NotifyLock? ==> s.workers[s.wakers[k].at.i].mutex.Free?)
  }

  /** The next operation of `do_sleep`. */
  function AdvanceWorker(s: State, w: nat): State
    requires Enabled(s, Advance(w))
  {
    var me := s.workers[w];
    match me.at
    case Linking => s.(workers := s.workers[w := me.(at := Testing)], idle := [w] + s.idle)
    case Testing => s.(workers := s.workers[w := me.(at := if 0 < s.pending then Reverting else Locking)])
    case Reverting =>
      s.(workers := s.workers[w := me.(st := if me.st.SleepTest? then Busy else me.st, at := Unlinking)])
    case Locking => s.(workers := s.workers[w := me.(mutex := Self, at := Committing)])
    case Committing =>
      s.(workers := s.workers[w := if me.st.SleepTest? then me.(st := Sleep, at := Resting)
                                   else me.(mutex := Free, at := Unlinking)])
    case Resting => s.(workers := s.workers[w := me.(mutex := Free, at := Waiting)])
    case Relocking => s.(workers := s.workers[w := me.(mutex := Self, at := Checking)])
    case Checking =>
      s.(workers := s.workers[w := if me.st.Sleep? then me.(at := Resting) else me.(mutex := Free, at := Unlinking)])
    case Unlinking => s.(workers := s.workers[w := me.(at := Running)], idle := Without(s.idle, w))
    case Running => s
    case Waiting => s
  }

  /** The next operation of `wakeup`. */
  function AdvanceWaker(s: State, k: nat): State
    requires Enabled(s, Wake(k))
  {
    var me := s.wakers[k];
    match me.at
    case Popping =>
      if me.n <= me.c || s.idle == [] then s.(wakers := s.wakers[k := me.(at := Outside)])
      else s.(wakers := s.wakers[k := me.(at := FromTest(s.idle[0]))], idle := s.idle[1..])
    case FromTest(i) =>
      if s.workers[i].st.SleepTest?
      then s.(workers := s.workers[i := s.workers[i].(st := Busy)], wakers := s.wakers[k := me.(at := NotifyLock(i))])
      else s.(wakers := s.wakers[k := me.(at := FromSleep(i))])
    case FromSleep(i) =>
      if s.workers[i].st.Sleep?
      then s.(workers := s.workers[i := s.workers[i].(st := Busy)], wakers := s.wakers[k := me.(at := NotifyLock(i))])
      else s.(wakers := s.wakers[k := me.(at := Popping)])
    case NotifyLock(i) =>
      s.(workers := s.workers[i := s.workers[i].(mutex := Other(k))],
         wakers := s.wakers[k := me.(at := NotifyLocked(i))])
    case NotifyLocked(i) =>
      s.(workers := s.workers[i :=
        s.workers[i].(mutex := Free, at := if s.workers[i].at.Waiting? then Relocking else s.workers[i].at)],
         wakers := s.wakers[k := me.(at := Popping, c := me.c + 1)])
    case Outside => s
  }

  function Apply(s: State, a: Action): State
    requires Enabled(s, a)
  {
    match a
    case Work(w) => s.(pending := s.pending - 1)
    case Idle(w) =>
      if s.workers[w].st.Busy? then s.(workers := s.workers[w := s.workers[w].(st := SleepTest, at := Linking)]) else s
    case Spurious(w) => s.(workers := s.workers[w := s.workers[w].(at := Relocking)])
    case Advance(w) => AdvanceWorker(s, w)
    case Publish(k, n) => s.(pending := s.pending + 1, wakers := s.wakers[k := Waker(Popping, 0, n)])
    case Call(k, n) => s.(wakers := s.wakers[k := Waker(Popping, 0, n)])
    case Wake(k) => AdvanceWaker(s, k)
  }

  /** A pool of at least one worker, all of them at work; threads that may call `wakeup`, none of them in a call. */
  predicate Init(s: State) {
    && s.workers != [] && s.idle == [] && s.pending == 0
    && (forall w :: 0 <= w < |s.workers| ==> s.workers[w] == Worker(Busy, Running, Free))
    && (forall k :: 0 <= k < |s.wakers| ==> s.wakers[k] == Waker(Outside, 0, 0))
  }

  ghost predicate Next(s: State, s': State) {
    exists a :: Enabled(s, a) && s' == Apply(s, a)
  }

  ghost predicate StepAt(b: seq<State>, k: nat)
    requires k + 1 < |b|
  {
    Next(b[k], b[k + 1])
  }

  ghost predicate Behavior(b: seq<State>) {
    b != [] && Init(b[0]) && forall k :: 0 <= k < |b| - 1 ==> StepAt(b, k)
  }

  // ---------------------------------------------------------------- invariant

  predicate InTest(at: Stage) {
    at.Linking? || at.Testing? || at.Reverting? || at.Locking? || at.Committing?
  }

  predicate InSleep(at: Stage) {
    at.Resting? || at.Waiting? || at.Relocking? || at.Checking?
  }

  /** What the fields of a worker say of where it is. */
  predicate WorkerOk(s: State, w: nat)
    requires w < |s.workers|
  {
    var me := s.workers[w];
    && (me.st.SleepTest? ==> InTest(me.at))
    && (me.st.Sleep? ==> InSleep(me.at))
    && (me.mutex.Self? <==> me.at.Committing? || me.at.Resting? || me.at.Checking?)
    && (w in s.idle ==> !me.at.Running? && !me.at.Linking?)
  }

  predicate WakerOk(s: State, k: nat)
    requires k < |s.wakers|
  {
    var me := s.wakers[k];
    && (!me.at.Outside? && !me.at.Popping? ==> me.at.i < |s.workers| && me.c < me.n)
    && (me.at.Popping? ==> me.c <= me.n)
    && (me.at.NotifyLocked? ==> s.workers[me.at.i].mutex == Other(k))
  }

  /** The thread `k` has popped the worker `w` and is about to wake it, if it sleeps. */
  predicate CoversBy(s: State, w: nat, k: nat)
    requires w < |s.workers| && k < |s.wakers|
  {
    s.wakers[k].at == FromTest(w) || (s.wakers[k].at == FromSleep(w) && s.workers[w].st.Sleep?)
  }

  /**
   * A worker that is not busy, and has linked itself, can be found: on
   * the idle list, or in the hands of a waking thread.
   */
  ghost predicate Found(s: State, w: nat)
    requires w < |s.workers|
  {
    !s.workers[w].st.Busy? && !s.workers[w].at.Linking? ==>
      w in s.idle || exists k: nat :: k < |s.wakers| && CoversBy(s, w, k)
  }

  predicate OwesBy(s: State, w: nat, k: nat)
    requires k < |s.wakers|
  {
    s.wakers[k].at == NotifyLock(w) || s.wakers[k].at == NotifyLocked(w)
  }

  /** A worker that waits, or is about to, although it was woken already, has its notification still coming. */
  ghost predicate Owed(s: State, w: nat)
    requires w < |s.workers|
  {
    (s.workers[w].at.Resting? || s.workers[w].at.Waiting?) && !s.workers[w].st.Sleep? ==>
      exists k: nat :: k < |s.wakers| && OwesBy(s, w, k)
  }

  /** The thread `k` will go on looking for a worker to wake. */
  predicate Looking(s: State, k: nat)
    requires k < |s.wakers|
  {
    s.wakers[k].at.FromTest? || s.wakers[k].at.FromSleep? || (s.wakers[k].at.Popping? && s.wakers[k].c < s.wakers[k].n)
  }

  ghost predicate AllAsleep(s: State) {
    forall w :: 0 <= w < |s.workers| ==> s.Asleep(w)
  }

  /** Work that no worker is awake for is being announced. */
  ghost predicate Announced(s: State) {
    0 < s.pending && AllAsleep(s) ==> exists k: nat :: k < |s.wakers| && Looking(s, k)
  }

  ghost predicate Inv(s: State) {
    && s.workers != [] && Distinct(s.idle) && (forall v :: v in s.idle ==> v < |s.workers|)
    && (forall w: nat :: w < |s.workers| ==> WorkerOk(s, w) && Found(s, w) && Owed(s, w))
    && (forall k: nat :: k < |s.wakers| ==> WakerOk(s, k))
    && Announced(s)
  }

  // ---------------------------------------------------------------- preservation

  /** A step of worker `w`: what it does to itself and to the idle list, as far as the others can tell. */
  ghost predicate WorkerStep(s: State, s': State, w: nat) {
    && w < |s.workers| && s'.wakers == s.wakers && s'.pending <= s.pending
    && s'.workers == s.workers[w := if w < |s'.workers| then s'.workers[w] else s.workers[w]]
    && Distinct(s'.idle) && (forall v :: v in s'.idle ==> v < |s.workers|)
    && (forall v :: v != w ==> (v in s'.idle <==> v in s.idle))
    && (s.workers[w].mutex.Other? || s'.workers[w].mutex.Other? ==> s'.workers[w].mutex == s.workers[w].mutex)
  }

  lemma WorkerStepKeepsInv(s: State, s': State, w: nat)
    requires Inv(s) && WorkerStep(s, s', w)
    requires WorkerOk(s', w) && Found(s', w) && Owed(s', w)
    requires s'.Asleep(w) ==> s.Asleep(w) || s.pending == 0
    ensures Inv(s')
  {
    forall v: nat | v < |s'.workers|
      ensures WorkerOk(s', v) && Found(s', v) && Owed(s', v)
    {
      assert WorkerOk(s, v) && Found(s, v) && Owed(s, v);
      if v != w && !s.workers[v].st.Busy? && !s.workers[v].at.Linking? && v !in s.idle {
        var k: nat :| k < |s.wakers| && CoversBy(s, v, k);
        assert CoversBy(s', v, k);
      }
      if v != w && (s.workers[v].at.Resting? || s.workers[v].at.Waiting?) && !s.workers[v].st.Sleep? {
        var k: nat :| k < |s.wakers| && OwesBy(s, v, k);
        assert OwesBy(s', v, k);
      }
    }
    forall k: nat | k < |s'.wakers|
      ensures WakerOk(s', k)
    {
      assert WakerOk(s, k);
    }
    if 0 < s'.pending && AllAsleep(s') {
      assert AllAsleep(s) by {
        forall v | 0 <= v < |s.workers| ensures s.Asleep(v) {
          assert s'.Asleep(v);
        }
      }
      var k: nat :| k < |s.wakers| && Looking(s, k);
      assert Looking(s', k);
    }
  }

  lemma AdvanceIdle(s: State, w: nat)
    requires Inv(s) && Enabled(s, Advance(w))
    ensures var s' := Apply(s, Advance(w));
      && Distinct(s'.idle) && (forall v :: v in s'.idle ==> v < |s.workers|)
      && (forall v :: v != w ==> (v in s'.idle <==> v in s.idle))
      && (w in s'.idle <==> (s.workers[w].at.Linking? || w in s.idle) && !s.workers[w].at.Unlinking?)
  {
    assert WorkerOk(s, w);
    WithoutOthers(s.idle, w);
    WithoutDistinct(s.idle, w);
    if s.workers[w].at.Linking? {
      var idle := [w] + s.idle;
      assert forall i :: 0 < i < |idle| ==> idle[i] == s.idle[i - 1] && idle[i] in s.idle;
      assert idle[0] == w;
    }
  }

  /** Steps of a worker that leave `wakeup` alone. */
  lemma AdvanceKeepsInv(s: State, w: nat)
    requires Inv(s) && Enabled(s, Advance(w))
    ensures Inv(Apply(s, Advance(w)))
  {
    var s', me := Apply(s, Advance(w)), s.workers[w];
    assert WorkerOk(s, w) && Found(s, w) && Owed(s, w);
    AdvanceIdle(s, w);
    if !s'.workers[w].st.Busy? && !s'.workers[w].at.Linking? && w !in s'.idle {
      var k: nat :| k < |s.wakers| && CoversBy(s, w, k);
      assert CoversBy(s', w, k);
    }
    if (s'.workers[w].at.Resting? || s'.workers[w].at.Waiting?) && !s'.workers[w].st.Sleep? {
      var k: nat :| k < |s.wakers| && OwesBy(s, w, k);
      assert OwesBy(s', w, k);
    }
    WorkerStepKeepsInv(s, s', w);
  }

  lemma IdleKeepsInv(s: State, w: nat)
    requires Inv(s) && Enabled(s, Idle(w))
    ensures Inv(Apply(s, Idle(w)))
  {
    assert WorkerOk(s, w) && Found(s, w) && Owed(s, w);
    WorkerStepKeepsInv(s, Apply(s, Idle(w)), w);
  }

  lemma SpuriousKeepsInv(s: State, w: nat)
    requires Inv(s) && Enabled(s, Spurious(w))
    ensures Inv(Apply(s, Spurious(w)))
  {
    var s' := Apply(s, Spurious(w));
    assert WorkerOk(s, w) && Found(s, w) && Owed(s, w);
    if !s'.workers[w].st.Busy? && w !in s'.idle {
      var k: nat :| k < |s.wakers| && CoversBy(s, w, k);
      assert CoversBy(s', w, k);
    }
    WorkerStepKeepsInv(s, s', w);
  }

  lemma WorkKeepsInv(s: State, w: nat)
    requires Inv(s) && Enabled(s, Work(w))
    ensures Inv(Apply(s, Work(w)))
  {
    var s' := Apply(s, Work(w));
    assert s'.workers == s'.workers[w := s'.workers[w]];
    assert WorkerOk(s, w) && Found(s, w) && Owed(s, w);
    WorkerStepKeepsInv(s, s', w);
  }

  // ---------------------------------------------------------------- waking

  lemma PopKeepsInv(s: State, k: nat)
    requires Inv(s) && Enabled(s, Wake(k)) && s.wakers[k].at.Popping?
    ensures Inv(Apply(s, Wake(k)))
  {
    var s', me := Apply(s, Wake(k)), s.wakers[k];
    assert s'.idle != s.idle ==> s.idle == [s.idle[0]] + s'.idle && s.idle[0] in s.idle;
    assert forall v :: v in s'.idle ==> v in s.idle;
    forall w: nat | w < |s.workers|
      ensures WorkerOk(s', w) && Found(s', w) && Owed(s', w)
    {
      assert WorkerOk(s, w) && Found(s, w) && Owed(s, w);
      OthersKeep(s, s', k, w);
      if s'.idle != s.idle && w == s.idle[0] {
        assert CoversBy(s', w, k);
      }
    }
    forall j: nat | j < |s'.wakers|
      ensures WakerOk(s', j)
    {
      assert WakerOk(s, j);
    }
    if 0 < s'.pending && AllAsleep(s') {
      assert forall w :: 0 <= w < |s.workers| ==> s.Asleep(w) == s'.Asleep(w);
      PopAnnounced(s, k);
    }
  }

  /** What only concerns other wakers stays as it is when `k` moves on from popping. */
  lemma OthersKeep(s: State, s': State, k: nat, w: nat)
    requires k < |s.wakers| && s.wakers[k].at.Popping? && w < |s.workers| && s'.workers == s.workers
    requires |s'.wakers| == |s.wakers| && forall j :: 0 <= j < |s.wakers| && j != k ==> s'.wakers[j] == s.wakers[j]
    ensures (exists j: nat :: j < |s.wakers| && CoversBy(s, w, j)) ==>
      exists j: nat :: j < |s'.wakers| && CoversBy(s', w, j)
    ensures (exists j: nat :: j < |s.wakers| && OwesBy(s, w, j)) ==>
      exists j: nat :: j < |s'.wakers| && OwesBy(s', w, j)
  {
    if j: nat :| j < |s.wakers| && CoversBy(s, w, j) {
      assert CoversBy(s', w, j);
    }
    if j: nat :| j < |s.wakers| && OwesBy(s, w, j) {
      assert OwesBy(s', w, j);
    }
  }

  /**
   * A thread that finds the idle list empty while every worker sleeps
   * is not alone: the first worker is in other hands.
   */
  lemma PopAnnounced(s: State, k: nat)
    requires Inv(s) && Enabled(s, Wake(k)) && s.wakers[k].at.Popping?
    requires 0 < s.pending && AllAsleep(s)
    ensures var s' := Apply(s, Wake(k)); exists j: nat :: j < |s'.wakers| && Looking(s', j)
  {
    var s', me := Apply(s, Wake(k)), s.wakers[k];
    if s.idle != [] && me.c < me.n {
      assert Looking(s', k);
    } else if s.idle == [] {
      assert s.Asleep(0) && WorkerOk(s, 0) && Found(s, 0);
      var j: nat :| j < |s.wakers| && CoversBy(s, 0, j);
      assert Looking(s', j);
    } else {
      var j: nat :| j < |s.wakers| && Looking(s, j);
      assert Looking(s', j);
    }
  }

  /** A step of thread `k` that changes worker `i` and its own place, not the idle list. */
  ghost predicate WakerStep(s: State, s': State, k: nat, i: nat) {
    && k < |s.wakers| && i < |s.workers| && |s'.workers| == |s.workers| && |s'.wakers| == |s.wakers|
    && s'.idle == s.idle && s'.pending == s.pending
    && s'.workers == s.workers[i := s'.workers[i]] && s'.wakers == s.wakers[k := s'.wakers[k]]
  }

  /** Such a step keeps the invariant if it does so for `i` and `k`, and does not lose sight of sleeping workers. */
  lemma WakerStepKeepsInv(s: State, s': State, k: nat, i: nat)
    requires Inv(s) && WakerStep(s, s', k, i)
    requires WorkerOk(s', i) && Found(s', i) && Owed(s', i) && WakerOk(s', k)
    requires s.wakers[k].at.FromTest? || s.wakers[k].at.FromSleep? || s.wakers[k].at.NotifyLock?
      || s.wakers[k].at.NotifyLocked?
    requires s.wakers[k].at.i == i
    requires forall j :: s'.workers[i].mutex != Other(j) && j != k ==> s.workers[i].mutex != Other(j)
    requires AllAsleep(s') ==> Looking(s', k) || (AllAsleep(s) && !Looking(s, k))
    ensures Inv(s')
  {
    forall w: nat | w < |s'.workers|
      ensures WorkerOk(s', w) && Found(s', w) && Owed(s', w)
    {
      assert WorkerOk(s, w) && Found(s, w) && Owed(s, w);
      if w != i && !s.workers[w].st.Busy? && !s.workers[w].at.Linking? && w !in s.idle {
        var j: nat :| j < |s.wakers| && CoversBy(s, w, j);
        assert CoversBy(s', w, j);
      }
      if w != i && (s.workers[w].at.Resting? || s.workers[w].at.Waiting?) && !s.workers[w].st.Sleep? {
        var j: nat :| j < |s.wakers| && OwesBy(s, w, j);
        assert OwesBy(s', w, j);
      }
    }
    forall j: nat | j < |s'.wakers|
      ensures WakerOk(s', j)
    {
      assert WakerOk(s, j);
    }
    if 0 < s'.pending && AllAsleep(s') && !Looking(s', k) {
      var j: nat :| j < |s.wakers| && Looking(s, j);
      assert Looking(s', j);
    }
  }

  lemma WakeKeepsInv(s: State, k: nat)
    requires Inv(s) && Enabled(s, Wake(k)) && !s.wakers[k].at.Popping?
    ensures Inv(Apply(s, Wake(k)))
  {
    var s', i := Apply(s, Wake(k)), s.wakers[k].at.i;
    assert WakerOk(s, k) && WorkerOk(s, i) && Found(s, i) && Owed(s, i);
    if !s'.workers[i].st.Busy? && !s'.workers[i].at.Linking? && i !in s'.idle {
      var j: nat :| j < |s.wakers| && CoversBy(s, i, j);
      assert CoversBy(s', i, j);
    }
    if (s'.workers[i].at.Resting? || s'.workers[i].at.Waiting?) && !s'.workers[i].st.Sleep? {
      if s.workers[i].st.Sleep? || s.wakers[k].at.NotifyLock? {
        assert OwesBy(s', i, k);
      } else {
        var j: nat :| j < |s.wakers| && OwesBy(s, i, j);
        assert OwesBy(s', i, j);
      }
    }
    if AllAsleep(s') {
      assert s'.Asleep(i);
      if !Looking(s', k) {
        forall w | 0 <= w < |s.workers|
          ensures s.Asleep(w)
        {
          assert s'.Asleep(w);
        }
      }
    }
    WakerStepKeepsInv(s, s', k, i);
  }

  lemma CallKeepsInv(s: State, k: nat, a: Action)
    requires Inv(s) && Enabled(s, a) && (a.Call? || a.Publish?) && a.k == k
    ensures Inv(Apply(s, a))
  {
    var s' := Apply(s, a);
    forall w: nat | w < |s.workers|
      ensures WorkerOk(s', w) && Found(s', w) && Owed(s', w)
    {
      assert WorkerOk(s, w) && Found(s, w) && Owed(s, w);
      if j: nat :| j < |s.wakers| && CoversBy(s, w, j) {
        assert CoversBy(s', w, j);
      }
      if j: nat :| j < |s.wakers| && OwesBy(s, w, j) {
        assert OwesBy(s', w, j);
      }
    }
    forall j: nat | j < |s'.wakers|
      ensures WakerOk(s', j)
    {
      assert WakerOk(s, j);
    }
    if 0 < s'.pending && AllAsleep(s') {
      if a.Publish? {
        assert Looking(s', k);
      } else {
        assert forall w :: 0 <= w < |s.workers| ==> s.Asleep(w) == s'.Asleep(w);
        var j: nat :| j < |s.wakers| && Looking(s, j);
        assert Looking(s', j);
      }
    }
  }

  lemma StepKeepsInv(s: State, a: Action)
    requires Inv(s) && Enabled(s, a)
    ensures Inv(Apply(s, a))
  {
    match a
    case Work(w) => WorkKeepsInv(s, w);
    case Idle(w) => IdleKeepsInv(s, w);
    case Spurious(w) => SpuriousKeepsInv(s, w);
    case Advance(w) => AdvanceKeepsInv(s, w);
    case Publish(k, n) => CallKeepsInv(s, k, a);
    case Call(k, n) => CallKeepsInv(s, k, a);
    case Wake(k) =>
      if s.wakers[k].at.Popping? {
        PopKeepsInv(s, k);
      } else {
        WakeKeepsInv(s, k);
      }
  }

  lemma {:induction false} InvAlways(b: seq<State>, k: nat)
    requires Behavior(b) && k < |b|
    ensures Inv(b[k])
  {
    if k == 0 {
      forall w: nat | w < |b[0].workers|
        ensures WorkerOk(b[0], w) && Found(b[0], w) && Owed(b[0], w)
      {
      }
      assert !b[0].Asleep(0);
    } else {
      InvAlways(b, k - 1);
      assert StepAt(b, k - 1);
      var a :| Enabled(b[k - 1], a) && b[k] == Apply(b[k - 1], a);
      StepKeepsInv(b[k - 1], a);
    }
  }

  // ---------------------------------------------------------------- theorems

  /**
   * No lost wakeup: whenever there is work and no thread is still looking for a worker to wake (in
   * particular once every call of `wakeup` has returned), some worker is neither asleep nor past a
   * failed test.
   */
  lemma NoLostWakeup(b: seq<State>, k: nat) returns (w: nat)
    requires Behavior(b) && k < |b| && 0 < b[k].pending
    requires forall j: nat :: j < |b[k].wakers| ==> !Looking(b[k], j)
    ensures w < |b[k].workers| && !b[k].Asleep(w)
  {
    InvAlways(b, k);
    w :| 0 <= w < |b[k].workers| && !b[k].Asleep(w);
  }

  /** A worker that was woken does not stay behind on its condition variable: some thread still has to notify it. */
  lemma NoMissedNotification(b: seq<State>, k: nat, w: nat)
    requires Behavior(b) && k < |b| && w < |b[k].workers| && b[k].workers[w].at.Waiting? && !b[k].workers[w].st.Sleep?
    ensures exists j: nat :: j < |b[k].wakers| && OwesBy(b[k], w, j)
  {
    InvAlways(b, k);
    assert Owed(b[k], w);
  }

  /** Every worker that rests is on the idle list, or was taken off it by a thread that is about to wake it. */
  lemma SleepersAreFound(b: seq<State>, k: nat, w: nat)
    requires Behavior(b) && k < |b| && w < |b[k].workers| && b[k].workers[w].st.Sleep?
    ensures w in b[k].idle || exists j: nat :: j < |b[k].wakers| && CoversBy(b[k], w, j)
  {
    InvAlways(b, k);
    assert Found(b[k], w) && WorkerOk(b[k], w);
  }

  /**
   * When no thread is inside `wakeup`, a waiting worker sleeps, is on the
   * idle list, and is not the only one if there is work.
   */
  lemma QuietPool(b: seq<State>, k: nat, w: nat) returns (v: nat)
    requires Behavior(b) && k < |b| && w < |b[k].workers| && b[k].workers[w].at.Waiting?
    requires forall j: nat :: j < |b[k].wakers| ==> b[k].wakers[j].at.Outside?
    ensures b[k].workers[w].st.Sleep? && w in b[k].idle
    ensures 0 < b[k].pending ==> v < |b[k].workers| && v != w && !b[k].Asleep(v)
  {
    InvAlways(b, k);
    if !b[k].workers[w].st.Sleep? {
      NoMissedNotification(b, k, w);
    }
    SleepersAreFound(b, k, w);
    v := 0;
    if 0 < b[k].pending {
      v := NoLostWakeup(b, k);
    }
  }

  // ---------------------------------------------------------------- what a call of `wakeup` does

  /** Step `q` is one of thread `k`, and makes a worker busy that was about to sleep or asleep. */
  ghost predicate Wakes(b: seq<State>, q: nat, k: nat)
    requires q + 1 < |b| && k < |b[q].wakers|
  {
    && |b[q + 1].wakers| == |b[q].wakers| && |b[q + 1].workers| == |b[q].workers|
    && b[q + 1].wakers[k] != b[q].wakers[k]
    && exists w: nat :: w < |b[q].workers| && !b[q].workers[w].st.Busy? && b[q + 1].workers[w].st.Busy?
  }

  /** How many workers thread `k` has woken from step `i` to step `m`. */
  ghost function Woken(b: seq<State>, k: nat, i: nat, m: nat): nat
    requires i <= m < |b| && forall q :: i <= q < m ==> k < |b[q].wakers|
    decreases m - i
  {
    if i == m then 0 else Woken(b, k, i, m - 1) + if Wakes(b, m - 1, k) then 1 else 0
  }

  /** Thread `k` is inside one call of `wakeup`, which began with step `i`, in every state up to `m`. */
  ghost predicate Calling(b: seq<State>, k: nat, i: nat, m: nat) {
    && i < m < |b| && (forall q :: i <= q <= m ==> k < |b[q].wakers|)
    && b[i].wakers[k].at.Outside? && forall q :: i < q <= m ==> !b[q].wakers[k].at.Outside?
  }

  /** The worker in hand, woken already but not counted yet. */
  function InHand(me: Waker): nat { if me.at.NotifyLock? || me.at.NotifyLocked? then 1 else 0 }

  /** What a step does to a thread that is inside `wakeup` before it, or gets there. */
  lemma WakerStepCounts(b: seq<State>, q: nat, k: nat)
    requires Behavior(b) && q + 1 < |b| && k < |b[q].wakers|
    ensures k < |b[q + 1].wakers| && |b[q + 1].workers| == |b[q].workers|
    ensures var me, me' := b[q].wakers[k], b[q + 1].wakers[k];
      if me.at.Outside? then me' == me || me' == Waker(Popping, 0, me'.n)
      else
        && me'.n == me.n && me'.c + InHand(me') == me.c + InHand(me) + (if Wakes(b, q, k) then 1 else 0)
        && (me'.at.Outside? ==> me.at.Popping? && me'.c == me.c && (me.c == me.n || b[q].idle == []))
  {
    InvAlways(b, q);
    assert StepAt(b, q) && WakerOk(b[q], k);
    var a :| Enabled(b[q], a) && b[q + 1] == Apply(b[q], a);
    if a.Wake? && a.k == k && (b[q].wakers[k].at.FromTest? || b[q].wakers[k].at.FromSleep?) {
      var w := b[q].wakers[k].at.i;
      assert WorkerOk(b[q], w);
      if b[q + 1].workers[w] != b[q].workers[w] {
        assert Wakes(b, q, k);
      }
    }
  }

  /** In every state of a call its count is that of the workers it has woken, but for the one in hand. */
  lemma {:induction false} CountsTheWoken(b: seq<State>, k: nat, i: nat, m: nat)
    requires Behavior(b) && Calling(b, k, i, m)
    ensures b[m].wakers[k].n == b[i + 1].wakers[k].n
    ensures b[m].wakers[k].c + InHand(b[m].wakers[k]) == Woken(b, k, i + 1, m)
    decreases m
  {
    if m == i + 1 {
      WakerStepCounts(b, i, k);
    } else {
      CountsTheWoken(b, k, i, m - 1);
      WakerStepCounts(b, m - 1, k);
    }
  }

  /**
   * What a call of `wakeup(n)` returns is the number of workers that it woke, and it only returns with
   * less than `n` when it found the idle list empty.
   */
  lemma WakesAsManyAsAsked(b: seq<State>, k: nat, i: nat, m: nat)
    requires Behavior(b) && Calling(b, k, i, m) && m + 1 < |b|
    requires k < |b[m + 1].wakers| && b[m + 1].wakers[k].at.Outside?
    ensures var c, n := b[m + 1].wakers[k].c, b[i + 1].wakers[k].n;
      c == Woken(b, k, i + 1, m + 1) <= n && (c == n || b[m].idle == [])
  {
    CountsTheWoken(b, k, i, m);
    WakerStepCounts(b, m, k);
    InvAlways(b, m);
    assert WakerOk(b[m], k);
  }

  /** A call begins with the number that it was given; publishing and doing work count it. */
  lemma CallsAndWork(b: seq<State>, k: nat, a: Action)
    requires Behavior(b) && k < |b| && Enabled(b[k], a)
    ensures var s, s' := b[k], Apply(b[k], a);
      && s'.pending == s.pending + (if a.Publish? then 1 else 0) - (if a.Work? then 1 else 0)
      && (a.Publish? || a.Call? ==> s'.wakers[a.k] == Waker(Popping, 0, a.n))
  {}

  // ---------------------------------------------------------------- left alone

  /** The same action `n` times in a row: a worker, or a thread in `wakeup`, that nobody gets in the way of. */
  ghost predicate Repeats(s: State, a: Action, n: nat, s': State)
    decreases n
  {
    if n == 0 then s' == s else Enabled(s, a) && Repeats(Apply(s, a), a, n - 1, s')
  }

  ghost predicate Gets(s: State, a: Action, s': State) { exists n: nat :: Repeats(s, a, n, s') }

  lemma Then(s: State, a: Action, s1: State, s': State)
    requires Enabled(s, a) && Apply(s, a) == s1 && (s1 == s' || Gets(s1, a, s'))
    ensures Gets(s, a, s')
  {
    if s1 == s' {
      assert Repeats(s1, a, 0, s');
    }
    var n: nat :| Repeats(s1, a, n, s');
    assert Repeats(s, a, n + 1, s');
  }

  function WithWorker(s: State, w: nat, me: Worker): State
    requires w < |s.workers|
  {
    s.(workers := s.workers[w := me])
  }

  function WithWaker(s: State, k: nat, me: Waker): State
    requires k < |s.wakers|
  {
    s.(wakers := s.wakers[k := me])
  }

  /** A worker that finds no work to do puts itself in front of the idle list and goes to sleep. */
  lemma SleepsWithoutWork(s: State, w: nat)
    requires w < |s.workers| && s.workers[w] == Worker(Busy, Running, Free) && s.pending == 0
    ensures Enabled(s, Idle(w))
    ensures Gets(Apply(s, Idle(w)), Advance(w),
                 WithWorker(s, w, Worker(Sleep, Waiting, Free)).(idle := [w] + s.idle))
  {
    var s1, end := Apply(s, Idle(w)), WithWorker(s, w, Worker(Sleep, Waiting, Free)).(idle := [w] + s.idle);
    var s2 := WithWorker(s1, w, Worker(SleepTest, Testing, Free)).(idle := [w] + s.idle);
    var s3 := WithWorker(s2, w, Worker(SleepTest, Locking, Free));
    var s4 := WithWorker(s3, w, Worker(SleepTest, Committing, Self));
    var s5 := WithWorker(s4, w, Worker(Sleep, Resting, Self));
    Then(s5, Advance(w), end, end);
    Then(s4, Advance(w), s5, end);
    Then(s3, Advance(w), s4, end);
    Then(s2, Advance(w), s3, end);
    Then(s1, Advance(w), s2, end);
  }

  /** A worker that sees work when it tests goes back to it, and off the idle list. */
  lemma StaysForWork(s: State, w: nat)
    requires w < |s.workers| && s.workers[w] == Worker(Busy, Running, Free) && 0 < s.pending && w !in s.idle
    ensures Enabled(s, Idle(w)) && Gets(Apply(s, Idle(w)), Advance(w), s)
  {
    var s1 := Apply(s, Idle(w));
    var s2 := WithWorker(s1, w, Worker(SleepTest, Testing, Free)).(idle := [w] + s.idle);
    var s3 := WithWorker(s2, w, Worker(SleepTest, Reverting, Free));
    var s4 := WithWorker(s3, w, Worker(Busy, Unlinking, Free));
    WithoutNone(s.idle, w);
    assert ([w] + s.idle)[1..] == s.idle;
    Then(s4, Advance(w), s, s);
    Then(s3, Advance(w), s4, s);
    Then(s2, Advance(w), s3, s);
    Then(s1, Advance(w), s2, s);
  }

  /** A worker whose wait ends for no reason goes back to it. */
  lemma WaitsOn(s: State, w: nat)
    requires w < |s.workers| && s.workers[w] == Worker(Sleep, Waiting, Free)
    ensures Enabled(s, Spurious(w)) && Gets(Apply(s, Spurious(w)), Advance(w), s)
  {
    var s1 := WithWorker(s, w, Worker(Sleep, Relocking, Free));
    var s2 := WithWorker(s1, w, Worker(Sleep, Checking, Self));
    var s3 := WithWorker(s2, w, Worker(Sleep, Resting, Self));
    assert WithWorker(s3, w, Worker(Sleep, Waiting, Free)) == s;
    Then(s3, Advance(w), s, s);
    Then(s2, Advance(w), s3, s);
    Then(s1, Advance(w), s2, s);
  }

  /** What a worker does that was woken, wherever that has met it: it goes back to work. */
  lemma GoesBackToWork(s: State, w: nat)
    requires w < |s.workers| && s.workers[w].st.Busy? && w !in s.idle
    requires var at := s.workers[w].at; at.Reverting? || at.Locking? || at.Relocking?
    requires s.workers[w].mutex.Free?
    ensures Gets(s, Advance(w), WithWorker(s, w, Worker(Busy, Running, Free)))
  {
    var s3, end := WithWorker(s, w, Worker(Busy, Unlinking, Free)), WithWorker(s, w, Worker(Busy, Running, Free));
    WithoutNone(s.idle, w);
    Then(s3, Advance(w), end, end);
    if s.workers[w].at.Reverting? {
      Then(s, Advance(w), s3, end);
    } else {
      var s2 := WithWorker(s, w, Worker(Busy, if s.workers[w].at.Locking? then Committing else Checking, Self));
      Then(s2, Advance(w), s3, end);
      Then(s, Advance(w), s2, end);
    }
  }

  /**
   * One round of `wakeup`: it takes the first worker off the idle list. If that is about to sleep or
   * asleep, it becomes busy, is notified if it waits, and counted; otherwise it is left alone.
   */
  lemma WakesTheFirst(s: State, k: nat)
    requires k < |s.wakers| && s.wakers[k].at.Popping? && s.wakers[k].c < s.wakers[k].n
    requires s.idle != [] && s.idle[0] < |s.workers| && s.workers[s.idle[0]].mutex.Free?
    ensures var w, c, n, rest := s.idle[0], s.wakers[k].c, s.wakers[k].n, s.(idle := s.idle[1..]);
      var me := s.workers[w];
      Gets(s, Wake(k),
           if me.st.Busy? then rest
           else WithWorker(WithWaker(rest, k, Waker(Popping, c + 1, n)), w,
                           Worker(Busy, if me.at.Waiting? then Relocking else me.at, Free)))
  {
    var w, c, n, rest := s.idle[0], s.wakers[k].c, s.wakers[k].n, s.(idle := s.idle[1..]);
    var me := s.workers[w];
    var s1, s2 := WithWaker(rest, k, Waker(FromTest(w), c, n)), WithWaker(rest, k, Waker(FromSleep(w), c, n));
    if me.st.Busy? {
      Then(s2, Wake(k), rest, rest);
      Then(s1, Wake(k), s2, rest);
      Then(s, Wake(k), s1, rest);
    } else {
      var end := WithWorker(WithWaker(rest, k, Waker(Popping, c + 1, n)), w,
                            Worker(Busy, if me.at.Waiting? then Relocking else me.at, Free));
      WakesWorker(s1, k, w, end);
      Then(s, Wake(k), s1, end);
    }
  }

  lemma WakesWorker(s: State, k: nat, w: nat, end: State)
    requires k < |s.wakers| && w < |s.workers| && s.wakers[k].at == FromTest(w)
    requires !s.workers[w].st.Busy? && s.workers[w].mutex.Free?
    requires end == WithWorker(WithWaker(s, k, Waker(Popping, s.wakers[k].c + 1, s.wakers[k].n)), w,
                               Worker(Busy, if s.workers[w].at.Waiting? then Relocking else s.workers[w].at, Free))
    ensures Gets(s, Wake(k), end)
  {
    var me := s.wakers[k];
    var s3 := WithWorker(WithWaker(s, k, me.(at := NotifyLock(w))), w, s.workers[w].(st := Busy));
    NotifiesTheWorker(s3, k, end);
    if s.workers[w].st.SleepTest? {
      Then(s, Wake(k), s3, end);
    } else {
      var s2 := WithWaker(s, k, me.(at := FromSleep(w)));
      Then(s2, Wake(k), s3, end);
      Then(s, Wake(k), s2, end);
    }
  }

  lemma NotifiesTheWorker(s: State, k: nat, end: State)
    requires k < |s.wakers| && s.wakers[k].at.NotifyLock?
    requires var w := s.wakers[k].at.i;
      && w < |s.workers| && s.workers[w].mutex.Free?
      && end == WithWorker(WithWaker(s, k, Waker(Popping, s.wakers[k].c + 1, s.wakers[k].n)), w,
                           s.workers[w].(at := if s.workers[w].at.Waiting? then Relocking else s.workers[w].at))
    ensures Gets(s, Wake(k), end)
  {
    var w := s.wakers[k].at.i;
    var s1 := WithWorker(WithWaker(s, k, s.wakers[k].(at := NotifyLocked(w))), w, s.workers[w].(mutex := Other(k)));
    Then(s1, Wake(k), end, end);
    Then(s, Wake(k), s1, end);
  }

  /** `wakeup` returns when it has woken as many as it was asked to, or the idle list is empty. */
  lemma ReturnsWhenDone(s: State, k: nat)
    requires k < |s.wakers| && s.wakers[k].at.Popping? && (s.wakers[k].n <= s.wakers[k].c || s.idle == [])
    ensures Gets(s, Wake(k), WithWaker(s, k, s.wakers[k].(at := Outside)))
  {
    var end := WithWaker(s, k, s.wakers[k].(at := Outside));
    Then(s, Wake(k), end, end);
  }
}
