/**
 * What a frame of a workq does when no other thread gets in between: from any state that a run may
 * reach, its steps end in the very result that `WorkqRun` gives for the operation as a whole.
 */
module WorkqAlone {
  import opened SeqSum
  import opened Queues
  import opened WorkqMachine
  import opened WorkqRun

  ghost predicate OwnStep(b: seq<State>, k: nat, f: nat)
    requires k + 1 < |b|
  {
    Inv(b[k]) && Enabled(b[k], Step(f)) && b[k + 1] == Apply(b[k], Step(f))
  }

  /** A run of steps of frame `f` only. */
  ghost predicate Alone(b: seq<State>, f: nat) {
    b != [] && Inv(b[0]) && forall k :: 0 <= k < |b| - 1 ==> OwnStep(b, k, f)
  }

  /** In such a run from `s` frame `f` gets to stage `at` with the lock `lck`; all else is as in `t` then. */
  ghost predicate Gets(s: State, f: nat, t: State, at: Stage, lck: Lock) {
    f < |t.frames| && exists b :: Alone(b, f) && b[0] == s && b[|b| - 1] == Put(t, f, at, lck)
  }

  lemma LastInv(b: seq<State>, f: nat)
    requires Alone(b, f)
    ensures Inv(b[|b| - 1])
  {
    if |b| > 1 {
      assert OwnStep(b, |b| - 2, f);
      AdvanceKeepsInv(b[|b| - 2], f);
    }
  }

  /** No frame ever has to wait for another one: whoever is inside an operation can do its next step. */
  lemma NeverBlocked(s: State, f: nat)
    requires Inv(s) && f < |s.frames| && !s.frames[f].at.Idle?
    ensures Enabled(s, Step(f))
  {
    SumDominates(s.frames, f, HoldsParallel());
  }

  lemma Here(s: State, f: nat, t: State, at: Stage, lck: Lock)
    requires Inv(s) && f < |t.frames| && s == Put(t, f, at, lck)
    ensures Gets(s, f, t, at, lck)
  {
    assert Alone([s], f);
  }

  /** What holds of the state that a frame gets to: it is one that a run may reach, and the frame can go on. */
  lemma There(s: State, f: nat, t: State, at: Stage, lck: Lock)
    requires Gets(s, f, t, at, lck)
    ensures Inv(Put(t, f, at, lck))
    ensures at.Idle? || Enabled(Put(t, f, at, lck), Step(f))
  {
    var b :| Alone(b, f) && b[0] == s && b[|b| - 1] == Put(t, f, at, lck);
    LastInv(b, f);
    if !at.Idle? {
      NeverBlocked(b[|b| - 1], f);
    }
  }

  lemma Longer(b: seq<State>, f: nat, s': State)
    requires Alone(b, f) && OwnStep([b[|b| - 1], s'], 0, f)
    ensures Alone(b + [s'], f)
  {
    var b' := b + [s'];
    forall k | 0 <= k < |b'| - 1
      ensures OwnStep(b', k, f)
    {
      if k < |b| - 1 {
        assert OwnStep(b, k, f);
      }
    }
  }

  /** A frame that is in no operation holds no lock. */
  lemma MayEnter(s: State, f: nat)
    requires Inv(s) && f < |s.frames| && s.frames[f].at.Idle?
    ensures s.frames[f] == Frame(Idle, Unlocked)
  {
    assert FrameOk(s, s.frames[f]);
  }

  /** One step more. */
  lemma Then(s: State, f: nat, t: State, at: Stage, lck: Lock, t': State, at': Stage, lck': Lock)
    requires Gets(s, f, t, at, lck) && !at.Idle? && f < |t'.frames|
    requires var m := Put(t, f, at, lck);
      Shaped(m) && Enabled(m, Step(f)) ==> Advance(m, f) == Put(t', f, at', lck')
    ensures Gets(s, f, t', at', lck')
  {
    There(s, f, t, at, lck);
    var b :| Alone(b, f) && b[0] == s && b[|b| - 1] == Put(t, f, at, lck);
    Longer(b, f, Put(t', f, at', lck'));
  }

  function Queue(s: State, lck: Lock): seq<nat> { if lck.Single? then s.runq else s.prunq }

  function WithQueue(s: State, lck: Lock, q: seq<nat>): State {
    if lck.Single? then s.(runq := q) else s.(prunq := q)
  }

  function Off(lck: Lock): Path { if lck.Single? then OffRunq else OffParallelRunq }

  /** Pop: the first job comes off the queue; with an empty queue the lock is given up. */
  lemma PopsOne(s: State, f: nat, t: State, lck: Lock)
    requires Gets(s, f, t, Pop, lck) && !lck.Unlocked?
    ensures var q := Queue(t, lck);
      if q == [] then Gets(s, f, t, Unlock, lck)
      else Gets(s, f, WithQueue(t, lck, q[1..]), TryJob(q[0], Off(lck)), lck)
  {
    var q := Queue(t, lck);
    if q == [] {
      Then(s, f, t, Pop, lck, t, Unlock, lck);
    } else {
      Then(s, f, t, Pop, lck, WithQueue(t, lck, q[1..]), TryJob(q[0], Off(lck)), lck);
    }
  }

  /** A job that cannot be locked is left alone. */
  lemma Skips(s: State, f: nat, t: State, j: nat, path: Path, lck: Lock)
    requires Gets(s, f, t, TryJob(j, path), lck) && !Lockable(t.jobs, j)
    ensures Gets(s, f, t, if path.Asked? then Unlock else Pop, lck)
  {
    Then(s, f, t, TryJob(j, path), lck, t, if path.Asked? then Unlock else Pop, lck);
  }

  lemma FoundLater(q: seq<nat>, jobs: seq<Job>)
    requires q != [] && !Lockable(jobs, q[0])
    ensures var i, k := FirstLockable(q, jobs), FirstLockable(q[1..], jobs);
      i == k + 1 && (k < |q| - 1 ==> q[i] == q[1..][k] && q[i + 1..] == q[1..][k + 1..])
  {}

  /** Where the loop that pops a run queue ends: at the first job that can be locked, or behind the last one. */
  ghost predicate Popped(s: State, f: nat, t: State, lck: Lock, q: seq<nat>) {
    var i := FirstLockable(q, t.jobs);
    if i == |q| then Gets(s, f, WithQueue(t, lck, []), Unlock, lck)
    else Gets(s, f, WithQueue(t, lck, q[i + 1..]), TryJob(q[i], Off(lck)), lck)
  }

  lemma PoppedLater(s: State, f: nat, t: State, lck: Lock, q: seq<nat>)
    requires q != [] && !Lockable(t.jobs, q[0]) && Popped(s, f, WithQueue(t, lck, q[1..]), lck, q[1..])
    ensures Popped(s, f, t, lck, q)
  {
    FoundLater(q, t.jobs);
    forall r: seq<nat>
      ensures WithQueue(WithQueue(t, lck, q[1..]), lck, r) == WithQueue(t, lck, r)
    {}
  }

  lemma {:induction false} Pops(s: State, f: nat, t: State, lck: Lock, q: seq<nat>)
    requires Gets(s, f, t, Pop, lck) && !lck.Unlocked? && q == Queue(t, lck)
    ensures Popped(s, f, t, lck, q)
    decreases q
  {
    PopsOne(s, f, t, lck);
    if q == [] {
      assert WithQueue(t, lck, []) == t;
    } else if !Lockable(t.jobs, q[0]) {
      var t1 := WithQueue(t, lck, q[1..]);
      Skips(s, f, t1, q[0], Off(lck), lck);
      Pops(s, f, t1, lck, q[1..]);
      PoppedLater(s, f, t, lck, q);
    }
  }

  /** The frame gives the lock on the workq back. */
  lemma Unlocks(s: State, f: nat, t: State, lck: Lock)
    requires Gets(s, f, t, Unlock, lck)
    ensures lck.Parallel? ==> 0 < t.parallel
    ensures Gets(s, f, t.(single := t.single && !lck.Single?,
                                 parallel := t.parallel - if lck.Parallel? then 1 else 0), Idle, Unlocked)
  {
    There(s, f, t, Unlock, lck);
    var t' := t.(single := t.single && !lck.Single?, parallel := t.parallel - if lck.Parallel? then 1 else 0);
    assert lck.Unlocked? ==> t' == t;
    Then(s, f, t, Unlock, lck, t', Idle, Unlocked);
  }

  lemma FitsTheLock(s: State, f: nat, t: State, j: nat, lck: Lock, path: Path)
    requires Gets(s, f, t, TryJob(j, path), lck)
    ensures j < |t.types| == |t.jobs| && (t.types[j].parallel || lck.Single?) && (path.OffRunq? ==> lck.Single?)
      && (path.OffParallelRunq? ==> lck.Parallel?)
  {
    There(s, f, t, TryJob(j, path), lck);
    var m := Put(t, f, TryJob(j, path), lck);
    assert FrameOk(m, m.frames[f]) && JobOf(m, m.frames[f].at);
  }

  lemma LocksJob(s: State, f: nat, t: State, j: nat, lck: Lock, path: Path)
    requires Gets(s, f, t, TryJob(j, path), lck) && Lockable(t.jobs, j) && j < |t.types|
    ensures Gets(s, f, t.(jobs := t.jobs[j := Job(true, t.types[j].persist)]),
                 if !path.OffRunq? then EraseRunq(j, path)
                 else if t.types[j].parallel then EraseParallel(j, path) else Running(j), lck)
  {
    Then(s, f, t, TryJob(j, path), lck, t.(jobs := t.jobs[j := Job(true, t.types[j].persist)]),
         if !path.OffRunq? then EraseRunq(j, path)
         else if t.types[j].parallel then EraseParallel(j, path) else Running(j), lck);
  }

  lemma ErasesFromRunq(s: State, f: nat, t: State, j: nat, lck: Lock, path: Path)
    requires Gets(s, f, t, EraseRunq(j, path), lck) && j < |t.types|
    ensures Gets(s, f, t.(runq := Without(t.runq, j)),
                 if path.Asked? && t.types[j].parallel then EraseParallel(j, path) else Running(j), lck)
  {
    Then(s, f, t, EraseRunq(j, path), lck, t.(runq := Without(t.runq, j)),
         if path.Asked? && t.types[j].parallel then EraseParallel(j, path) else Running(j), lck);
  }

  lemma ErasesFromParallelRunq(s: State, f: nat, t: State, j: nat, lck: Lock, path: Path)
    requires Gets(s, f, t, EraseParallel(j, path), lck)
    ensures Gets(s, f, t.(prunq := Without(t.prunq, j)), if path.OffRunq? then AddDowngrade(j) else Running(j), lck)
  {
    Then(s, f, t, EraseParallel(j, path), lck, t.(prunq := Without(t.prunq, j)),
         if path.OffRunq? then AddDowngrade(j) else Running(j), lck);
  }

  lemma AddsItself(s: State, f: nat, t: State, j: nat)
    requires Gets(s, f, t, AddDowngrade(j), Single)
    ensures Gets(s, f, t.(parallel := t.parallel + 1), DropSingle(j), Single)
  {
    Then(s, f, t, AddDowngrade(j), Single, t.(parallel := t.parallel + 1), DropSingle(j), Single);
  }

  /** A parallel job that was found under RUN_SINGLE runs under RUN_PARALLEL. */
  lemma Downgrades(s: State, f: nat, t: State, j: nat)
    requires Gets(s, f, t, AddDowngrade(j), Single)
    ensures Gets(s, f, t.(single := false, parallel := t.parallel + 1), Running(j), Parallel)
  {
    AddsItself(s, f, t, j);
    var t1 := t.(parallel := t.parallel + 1);
    Then(s, f, t1, DropSingle(j), Single, t1.(single := false), Running(j), Parallel);
  }

  /** What locking job `j` of state `t` in one of the three ways leads to, the frames apart. */
  function Taken(t: State, j: nat, path: Path): State
    requires j < |t.jobs| == |t.types|
  {
    var par := t.types[j].parallel;
    t.(jobs := t.jobs[j := Job(true, t.types[j].persist)],
       runq := if path.OffRunq? then t.runq else Without(t.runq, j),
       prunq := if par && !path.OffParallelRunq? then Without(t.prunq, j) else t.prunq,
       single := t.single && !(par && path.OffRunq?),
       parallel := t.parallel + if par && path.OffRunq? then 1 else 0)
  }

  /** A job that can be locked runs. One off `m_runq` that is parallel does so under RUN_PARALLEL. */
  lemma Takes(s: State, f: nat, t: State, j: nat, lck: Lock, path: Path)
    requires Gets(s, f, t, TryJob(j, path), lck) && Lockable(t.jobs, j)
    ensures j < |t.jobs| == |t.types|
    ensures Gets(s, f, Taken(t, j, path), Running(j), if t.types[j].parallel && path.OffRunq? then Parallel else lck)
  {
    FitsTheLock(s, f, t, j, lck, path);
    LocksJob(s, f, t, j, lck, path);
    var t1 := t.(jobs := t.jobs[j := Job(true, t.types[j].persist)]);
    if !path.OffRunq? {
      Erases(s, f, t1, j, lck, path);
    } else if t.types[j].parallel {
      ErasesAndDowngrades(s, f, t1, j);
    } else {
    }
  }

  lemma ErasesAndDowngrades(s: State, f: nat, t: State, j: nat)
    requires Gets(s, f, t, EraseParallel(j, OffRunq), Single)
    ensures Gets(s, f, t.(prunq := Without(t.prunq, j), single := false, parallel := t.parallel + 1),
                 Running(j), Parallel)
  {
    ErasesFromParallelRunq(s, f, t, j, Single, OffRunq);
    Downgrades(s, f, t.(prunq := Without(t.prunq, j)), j);
  }

  lemma Erases(s: State, f: nat, t: State, j: nat, lck: Lock, path: Path)
    requires Gets(s, f, t, EraseRunq(j, path), lck) && !path.OffRunq? && j < |t.types|
    ensures Gets(s, f, t.(runq := Without(t.runq, j),
                             prunq := if path.Asked? && t.types[j].parallel then Without(t.prunq, j) else t.prunq),
                 Running(j), lck)
  {
    var t1 := t.(runq := Without(t.runq, j));
    ErasesFromRunq(s, f, t, j, lck, path);
    if path.Asked? && t.types[j].parallel {
      ErasesFromParallelRunq(s, f, t1, j, lck, path);
    } else {
      assert t1.(prunq := t.prunq) == t1;
    }
  }

  // ---------------------------------------------------------------- looking for work

  /**
   * `wq_run_lock::lock(workq&)` with RUN_SINGLE free: the frame ends up running the first job of `m_runq`
   * that can be locked, a parallel one under RUN_PARALLEL. With no such job it has given the lock up again.
   */
  lemma LooksForWork(s: State, f: nat)
    requires Inv(s) && f < |s.frames| && s.frames[f].at.Idle? && !s.single
    ensures Enabled(s, LockWorkq(f))
    ensures var q, i, s0 := s.runq, FirstLockable(s.runq, s.jobs), Apply(s, LockWorkq(f));
      if i == |q| then Gets(s0, f, s.(runq := []), Idle, Unlocked)
      else
        var j, par := q[i], s.types[q[i]].parallel;
        Gets(s0, f, s.(jobs := s.jobs[j := Job(true, s.types[j].persist)],
                       single := !par, parallel := s.parallel + if par then 1 else 0,
                       runq := q[i + 1..], prunq := if par then Without(s.prunq, j) else s.prunq),
             Running(j), if par then Parallel else Single)
  {
    MayEnter(s, f);
    var s0 := Apply(s, LockWorkq(f));
    EnterKeepsInv(s, LockWorkq(f), f);
    GetsTheLock(s, f, s0);
    Pops(s0, f, s.(single := true), Single, s.runq);
    EndsLooking(s0, f, s.(single := true), Single, s.runq);
  }

  /** With RUN_SINGLE taken it is the first such job of `m_p_runq`, under RUN_PARALLEL. */
  lemma LooksForParallelWork(s: State, f: nat)
    requires Inv(s) && f < |s.frames| && s.frames[f].at.Idle? && s.single
    ensures Enabled(s, LockWorkq(f))
    ensures var q, i, s0 := s.prunq, FirstLockable(s.prunq, s.jobs), Apply(s, LockWorkq(f));
      if i == |q| then Gets(s0, f, s.(prunq := []), Idle, Unlocked)
      else
        var j := q[i];
        && s.types[j].parallel
        && Gets(s0, f, s.(jobs := s.jobs[j := Job(true, s.types[j].persist)], parallel := s.parallel + 1,
                          prunq := q[i + 1..], runq := Without(s.runq, j)), Running(j), Parallel)
  {
    MayEnter(s, f);
    var s0 := Apply(s, LockWorkq(f));
    EnterKeepsInv(s, LockWorkq(f), f);
    GetsTheLock(s, f, s0);
    Pops(s0, f, s.(parallel := s.parallel + 1), Parallel, s.prunq);
    EndsLooking(s0, f, s.(parallel := s.parallel + 1), Parallel, s.prunq);
  }

  lemma EndsLooking(s: State, f: nat, t: State, lck: Lock, q: seq<nat>)
    requires !lck.Unlocked? && Popped(s, f, t, lck, q)
    ensures var i := FirstLockable(q, t.jobs);
      if i == |q| then
        && (lck.Parallel? ==> 0 < t.parallel)
        && Gets(s, f, WithQueue(t, lck, []).(single := t.single && !lck.Single?,
                                             parallel := t.parallel - if lck.Parallel? then 1 else 0),
                Idle, Unlocked)
      else
        var j, t' := q[i], WithQueue(t, lck, q[i + 1..]);
        && j < |t'.jobs| == |t'.types|
        && Gets(s, f, Taken(t', j, Off(lck)), Running(j),
                if t'.types[j].parallel && Off(lck).OffRunq? then Parallel else lck)
  {
    var i := FirstLockable(q, t.jobs);
    if i == |q| {
      Unlocks(s, f, WithQueue(t, lck, []), lck);
    } else {
      Takes(s, f, WithQueue(t, lck, q[i + 1..]), q[i], lck, Off(lck));
    }
  }

  lemma GetsTheLock(s: State, f: nat, s0: State)
    requires Inv(s) && Enabled(s, LockWorkq(f)) && s0 == Apply(s, LockWorkq(f)) && Inv(s0)
    ensures if s.single then Gets(s0, f, s.(parallel := s.parallel + 1), Pop, Parallel)
            else Gets(s0, f, s.(single := true), Pop, Single)
  {
    Here(s0, f, s, TakeSingle(AnyJob), Unlocked);
    if s.single {
      Then(s0, f, s, TakeSingle(AnyJob), Unlocked, s, AddParallel(AnyJob), Unlocked);
      Then(s0, f, s, AddParallel(AnyJob), Unlocked, s.(parallel := s.parallel + 1), Pop, Parallel);
    } else {
      Then(s0, f, s, TakeSingle(AnyJob), Unlocked, s.(single := true), Pop, Single);
    }
  }

  // ---------------------------------------------------------------- asking for a job

  /** A frame that asks for a job that is not parallel, with RUN_SINGLE taken, does not get it. */
  lemma AsksInVain(s: State, f: nat, t: State, j: nat)
    requires j < |t.types| && Gets(s, f, t, TakeSingle(ThisJob(j)), Unlocked) && t.single && !t.types[j].parallel
    ensures Gets(s, f, t, Idle, Unlocked)
  {
    var t1 := t.(parallel := t.parallel + 1);
    Then(s, f, t, TakeSingle(ThisJob(j)), Unlocked, t, AddParallel(ThisJob(j)), Unlocked);
    Then(s, f, t, AddParallel(ThisJob(j)), Unlocked, t1, Unlock, Parallel);
    Unlocks(s, f, t1, Parallel);
    assert t1.(single := t1.single && true, parallel := t1.parallel - 1) == t;
  }

  lemma AsksAlone(s: State, f: nat, t: State, j: nat)
    requires j < |t.types| && (t.single ==> t.types[j].parallel)
    requires Gets(s, f, t, if t.types[j].parallel then AddParallel(ThisJob(j)) else TakeSingle(ThisJob(j)), Unlocked)
    ensures var par := t.types[j].parallel;
      Gets(s, f, t.(single := t.single || !par, parallel := t.parallel + if par then 1 else 0), TryJob(j, Asked),
           if par then Parallel else Single)
  {
    if t.types[j].parallel {
      Then(s, f, t, AddParallel(ThisJob(j)), Unlocked, t.(parallel := t.parallel + 1), TryJob(j, Asked), Parallel);
    } else {
      Then(s, f, t, TakeSingle(ThisJob(j)), Unlocked, t.(single := true), TryJob(j, Asked), Single);
    }
  }

  /** What asking for job `j` in state `t` ends in: the frame runs it, if it can be locked now, or is where it was. */
  ghost predicate Answered(s: State, f: nat, t: State, j: nat)
    requires j < |t.jobs| == |t.types|
  {
    var par := t.types[j].parallel;
    if !Lockable(t.jobs, j) || (t.single && !par) then Gets(s, f, t, Idle, Unlocked)
    else Gets(s, f, t.(jobs := t.jobs[j := Job(true, t.types[j].persist)],
                       single := t.single || !par, parallel := t.parallel + if par then 1 else 0,
                       runq := Without(t.runq, j), prunq := if par then Without(t.prunq, j) else t.prunq),
              Running(j), if par then Parallel else Single)
  }

  lemma Answers(s: State, f: nat, t: State, j: nat)
    requires j < |t.jobs| == |t.types|
    requires Gets(s, f, t, if t.types[j].parallel then AddParallel(ThisJob(j)) else TakeSingle(ThisJob(j)), Unlocked)
    ensures Answered(s, f, t, j)
  {
    var par := t.types[j].parallel;
    if t.single && !par {
      AsksInVain(s, f, t, j);
    } else {
      AsksAlone(s, f, t, j);
      var t1 := t.(single := t.single || !par, parallel := t.parallel + if par then 1 else 0);
      if Lockable(t.jobs, j) {
        Takes(s, f, t1, j, if par then Parallel else Single, Asked);
      } else {
        IsRefused(s, f, t, j);
      }
    }
  }

  lemma IsRefused(s: State, f: nat, t: State, j: nat)
    requires j < |t.types| && !Lockable(t.jobs, j) && (t.single ==> t.types[j].parallel)
    requires var par := t.types[j].parallel;
      Gets(s, f, t.(single := t.single || !par, parallel := t.parallel + if par then 1 else 0), TryJob(j, Asked),
           if par then Parallel else Single)
    ensures Gets(s, f, t, Idle, Unlocked)
  {
    var par := t.types[j].parallel;
    var t1 := t.(single := t.single || !par, parallel := t.parallel + if par then 1 else 0);
    var lck := if par then Parallel else Single;
    Skips(s, f, t1, j, Asked, lck);
    Unlocks(s, f, t1, lck);
    assert t1.(single := t1.single && !lck.Single?, parallel := t1.parallel - if lck.Parallel? then 1 else 0) == t;
  }

  /** `wq_run_lock::lock(workq_job&)`. */
  lemma AsksForJob(s: State, f: nat, j: nat)
    requires Inv(s) && f < |s.frames| && s.frames[f].at.Idle? && j < |s.jobs|
    ensures Enabled(s, LockJob(f, j))
    ensures Answered(Apply(s, LockJob(f, j)), f, s, j)
  {
    MayEnter(s, f);
    var s0 := Apply(s, LockJob(f, j));
    EnterKeepsInv(s, LockJob(f, j), f);
    Here(s0, f, s, Asking(s, j), Unlocked);
    Answers(s0, f, s, j);
  }

  // ---------------------------------------------------------------- run queues

  /** `q` with `j` behind all others, unless it is on it. */
  function Queued(q: seq<nat>, j: nat): seq<nat> { q + if j in q then [] else [j] }

  /** Both run queues with `j` behind all others; `m_p_runq` is for parallel jobs only. */
  function WithJob(t: State, j: nat): State
    requires j < |t.types|
  {
    t.(runq := Queued(t.runq, j), prunq := if t.types[j].parallel then Queued(t.prunq, j) else t.prunq)
  }

  /** `job_to_runq` puts the job on `m_runq`, and on `m_p_runq` if it is parallel. */
  lemma Links(s: State, f: nat, t: State, j: nat, sequel: Sequel, lck: Lock)
    requires j < |t.types| == |t.jobs|
    requires Gets(s, f, t, if t.types[j].parallel then LinkParallel(j, sequel) else LinkRunq(j, sequel), lck)
    ensures Gets(s, f, WithJob(t, j),
                 if sequel.Release? then Unlock else if sequel.Return? then Idle
                 else if t.types[j].parallel then AddParallel(ThisJob(j)) else TakeSingle(ThisJob(j)), lck)
  {
    if t.types[j].parallel {
      LinksToParallelRunq(s, f, t, j, sequel, lck);
      LinksToRunq(s, f, t.(prunq := Queued(t.prunq, j)), j, sequel, lck);
    } else {
      LinksToRunq(s, f, t, j, sequel, lck);
    }
  }

  lemma LinksToParallelRunq(s: State, f: nat, t: State, j: nat, sequel: Sequel, lck: Lock)
    requires Gets(s, f, t, LinkParallel(j, sequel), lck)
    ensures Gets(s, f, t.(prunq := Queued(t.prunq, j)), LinkRunq(j, sequel), lck)
  {
    Then(s, f, t, LinkParallel(j, sequel), lck, t.(prunq := Queued(t.prunq, j)), LinkRunq(j, sequel), lck);
  }

  lemma LinksToRunq(s: State, f: nat, t: State, j: nat, sequel: Sequel, lck: Lock)
    requires j < |t.types| == |t.jobs| && Gets(s, f, t, LinkRunq(j, sequel), lck)
    ensures Gets(s, f, t.(runq := Queued(t.runq, j)),
                 if sequel.Release? then Unlock else if sequel.Return? then Idle
                 else if t.types[j].parallel then AddParallel(ThisJob(j)) else TakeSingle(ThisJob(j)), lck)
  {
    Then(s, f, t, LinkRunq(j, sequel), lck, t.(runq := Queued(t.runq, j)),
         if sequel.Release? then Unlock else if sequel.Return? then Idle
         else if t.types[j].parallel then AddParallel(ThisJob(j)) else TakeSingle(ThisJob(j)), lck);
  }

  /**
   * `wq_run_lock::unlock` after the job ran: it may run again then, and is back on the run queues if it
   * was activated meanwhile, unless it is of type ONCE; and the lock on the workq is given up.
   */
  lemma GivesBack(s: State, f: nat)
    requires Inv(s) && f < |s.frames| && s.frames[f].at.Running?
    ensures var j, lck := s.frames[f].at.j, s.frames[f].lck;
      && j < |s.jobs| == |s.types| && (lck.Parallel? ==> 0 < s.parallel)
      && var again := s.jobs[j].active && !s.types[j].once;
        Gets(s, f, s.(jobs := s.jobs[j := s.jobs[j].(running := false)],
                      single := s.single && !lck.Single?, parallel := s.parallel - if lck.Parallel? then 1 else 0,
                      runq := if again then Queued(s.runq, j) else s.runq,
                      prunq := if again && s.types[j].parallel then Queued(s.prunq, j) else s.prunq), Idle, Unlocked)
  {
    var j, lck := s.frames[f].at.j, s.frames[f].lck;
    assert JobOf(s, s.frames[f].at);
    Here(s, f, s, Running(j), lck);
    There(s, f, s, Running(j), lck);
    var again := s.jobs[j].active && !s.types[j].once;
    StopsRunning(s, f, s, j, lck);
    var t := s.(jobs := s.jobs[j := s.jobs[j].(running := false)]);
    if again {
      Links(s, f, t, j, Release, lck);
      Unlocks(s, f, WithJob(t, j), lck);
    } else {
      Unlocks(s, f, t, lck);
    }
  }

  lemma StopsRunning(s: State, f: nat, t: State, j: nat, lck: Lock)
    requires j < |t.types| == |t.jobs| && Gets(s, f, t, Running(j), lck)
    ensures Gets(s, f, t.(jobs := t.jobs[j := t.jobs[j].(running := false)]),
                 if t.types[j].once || !t.jobs[j].active then Unlock
                 else if t.types[j].parallel then LinkParallel(j, Release) else LinkRunq(j, Release), lck)
  {
    Then(s, f, t, Running(j), lck, t.(jobs := t.jobs[j := t.jobs[j].(running := false)]),
         if t.types[j].once || !t.jobs[j].active then Unlock
         else if t.types[j].parallel then LinkParallel(j, Release) else LinkRunq(j, Release), lck);
  }

  /**
   * `activate`: the job is active, and on the run queues if it was neither active nor running. With
   * ACT_IMMED, unless the job is of type NO_AID, the frame asks for it, and may run it.
   */
  lemma Activates(s: State, f: nat, j: nat, immed: bool)
    requires Inv(s) && f < |s.frames| && s.frames[f].at.Idle? && j < |s.jobs|
    ensures Enabled(s, Activate(f, j, immed))
    ensures var was, s0 := s.jobs[j], Apply(s, Activate(f, j, immed));
      var t := s.(jobs := s.jobs[j := Job(was.running, true)]);
      var t' := if was.active || was.running then t else WithJob(t, j);
      if immed && !s.types[j].noAid then Answered(s0, f, t', j) else Gets(s0, f, t', Idle, Unlocked)
  {
    MayEnter(s, f);
    var was, s0 := s.jobs[j], Apply(s, Activate(f, j, immed));
    var t := s.(jobs := s.jobs[j := Job(was.running, true)]);
    EnterKeepsInv(s, Activate(f, j, immed), f);
    var again := immed && !s.types[j].noAid;
    var ask := if s.types[j].parallel then AddParallel(ThisJob(j)) else TakeSingle(ThisJob(j));
    var t' := if was.active || was.running then t else WithJob(t, j);
    if was.active || was.running {
      Here(s0, f, t, if again then ask else Idle, Unlocked);
    } else {
      var sequel := if again then Relock else Return;
      Here(s0, f, t, if s.types[j].parallel then LinkParallel(j, sequel) else LinkRunq(j, sequel), Unlocked);
      Links(s0, f, t, j, sequel, Unlocked);
    }
    if again {
      Answers(s0, f, t', j);
    }
  }

  /** `deactivate` takes the activation back, and nothing else. */
  lemma Deactivates(s: State, j: nat)
    requires Inv(s) && j < |s.jobs|
    ensures Enabled(s, Deactivate(j))
    ensures Apply(s, Deactivate(j)).jobs == s.jobs[j := Job(s.jobs[j].running, false)]
    ensures Apply(s, Deactivate(j)).(jobs := s.jobs) == s
  {}
}
