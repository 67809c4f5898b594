/**
 * Run locks and activation of the jobs of one workq: one step per atomic operation or list
 * operation, interleaved over any number of frames (a thread inside `wq_run_lock` or `activate`).
 */
module WorkqMachine {
  import opened Queues
  import opened SeqSum

  datatype JobType = JobType(parallel: bool, once: bool, persist: bool, noAid: bool)

  /** STATE_RUNNING and STATE_ACTIVE of the state word; STATE_HAS_RUN is never set. */
  datatype Job = Job(running: bool, active: bool)

  /** The lock on the workq that a frame holds. */
  datatype Lock = Unlocked | Single | Parallel

  /** How a frame came to its job: off one of the run queues, or asking for this one. */
  datatype Path = OffRunq | OffParallelRunq | Asked

  /** What a frame locks the workq for. */
  datatype Want = AnyJob | ThisJob(j: nat)

  /** What follows putting a job on the run queues. */
  datatype Sequel = Return | Relock | Release

  /** Where a frame is; each stage names the operation it is about to perform. */
  datatype Stage =
    | Idle
    | TakeSingle(want: Want)           // lock_run: exchange m_run_single
    | AddParallel(want: Want)          // lock_run, lock_run_parallel: increment m_run_parallel
    | Pop                              // pop_front of m_runq, or of m_p_runq without RUN_SINGLE
    | TryJob(j: nat, path: Path)       // workq_job::lock_run
    | EraseRunq(j: nat, path: Path)    // take the locked job off m_runq
    | EraseParallel(j: nat, path: Path)  // take the locked job off m_p_runq
    | AddDowngrade(j: nat)             // lock_run_downgrade: increment m_run_parallel
    | DropSingle(j: nat)               // lock_run_downgrade: clear m_run_single
    | Running(j: nat)                  // run the job, then workq_job::unlock_run
    | LinkParallel(j: nat, sequel: Sequel)  // job_to_runq: link_back to m_p_runq
    | LinkRunq(j: nat, sequel: Sequel)   // job_to_runq: link_back to m_runq
    | Unlock                           // workq::unlock_run

  datatype Frame = Frame(at: Stage, lck: Lock)

  datatype State = State(
    types: seq<JobType>, jobs: seq<Job>,
    single: bool, parallel: nat,       // m_run_single, m_run_parallel
    runq: seq<nat>, prunq: seq<nat>,   // m_runq, m_p_runq
    frames: seq<Frame>)

  datatype Action =
    | Activate(f: nat, j: nat, immed: bool)
    | Deactivate(j: nat)
    | LockWorkq(f: nat)    // wq_run_lock::lock(workq&)
    | LockJob(f: nat, j: nat)  // wq_run_lock::lock(workq_job&)
    | Step(f: nat)         // the next operation of frame `f`

  predicate JobOf(s: State, at: Stage) {
    match at
    case Idle => true
    case TakeSingle(want) => want.ThisJob? ==> want.j < |s.jobs|
    case AddParallel(want) => want.ThisJob? ==> want.j < |s.jobs|
    case Pop => true
    case Unlock => true
    case _ => at.j < |s.jobs|
  }

  predicate Shaped(s: State) {
    && |s.types| == |s.jobs|
    && (forall f :: 0 <= f < |s.frames| ==> JobOf(s, s.frames[f].at))
    && (forall x :: x in s.runq ==> x < |s.jobs|) && (forall x :: x in s.prunq ==> x < |s.jobs|)
  }

  predicate Enabled(s: State, a: Action)
    requires Shaped(s)
  {
    match a
    case Activate(f, j, immed) => f < |s.frames| && j < |s.jobs| && s.frames[f] == Frame(Idle, Unlocked)
    case Deactivate(j) => j < |s.jobs|
    case LockWorkq(f) => f < |s.frames| && s.frames[f] == Frame(Idle, Unlocked)
    case LockJob(f, j) => f < |s.frames| && j < |s.jobs| && s.frames[f] == Frame(Idle, Unlocked)
    case Step(f) =>
      f < |s.frames| && !s.frames[f].at.Idle?
        && (s.frames[f].at.Unlock? && s.frames[f].lck.Parallel? ==> 0 < s.parallel)
  }

  function Put(s: State, f: nat, at: Stage, lck: Lock): State
    requires f < |s.frames|
  {
    s.(frames := s.frames[f := Frame(at, lck)])
  }

  /** The way into `lock(workq_job&)`. */
  function Asking(s: State, j: nat): Stage
    requires Shaped(s) && j < |s.jobs|
  {
    if s.types[j].parallel then AddParallel(ThisJob(j)) else TakeSingle(ThisJob(j))
  }

  /** The way into `job_to_runq`. */
  function Linking(s: State, j: nat, q: Sequel): Stage
    requires Shaped(s) && j < |s.jobs|
  {
    if s.types[j].parallel then LinkParallel(j, q) else LinkRunq(j, q)
  }

  /** What `workq_job::lock_run` asks of a job. */
  predicate Lockable(jobs: seq<Job>, j: nat) {
    j < |jobs| && jobs[j].active && !jobs[j].running
  }

  /** `workq_job::lock_run` when it succeeds. */
  function Locked(s: State, j: nat): State
    requires Shaped(s) && j < |s.jobs|
  {
    s.(jobs := s.jobs[j := Job(true, s.types[j].persist && s.jobs[j].active)])
  }

  function Advance(s: State, f: nat): State
    requires Shaped(s) && Enabled(s, Step(f))
  {
    var at, lck := s.frames[f].at, s.frames[f].lck;
    match at
    case Idle => s
    case TakeSingle(want) =>
      if s.single then Put(s, f, AddParallel(want), Unlocked)
      else Put(s.(single := true), f, if want.AnyJob? then Pop else TryJob(want.j, Asked), Single)
    case AddParallel(want) =>
      Put(s.(parallel := s.parallel + 1), f,
          if want.AnyJob? then Pop else if s.types[want.j].parallel then TryJob(want.j, Asked) else Unlock, Parallel)
    case Pop =>
      if lck.Single? then
        if s.runq == [] then Put(s, f, Unlock, lck)
        else Put(s.(runq := s.runq[1..]), f, TryJob(s.runq[0], OffRunq), lck)
      else
        if s.prunq == [] then Put(s, f, Unlock, lck)
        else Put(s.(prunq := s.prunq[1..]), f, TryJob(s.prunq[0], OffParallelRunq), lck)
    case TryJob(j, path) =>
      if !Lockable(s.jobs, j) then Put(s, f, if path.Asked? then Unlock else Pop, lck)
      else if path.OffRunq? then
        Put(Locked(s, j), f, if s.types[j].parallel then EraseParallel(j, path) else Running(j), lck)
      else Put(Locked(s, j), f, EraseRunq(j, path), lck)
    case EraseRunq(j, path) =>
      Put(s.(runq := Without(s.runq, j)), f,
          if path.Asked? && s.types[j].parallel then EraseParallel(j, path) else Running(j), lck)
    case EraseParallel(j, path) =>
      Put(s.(prunq := Without(s.prunq, j)), f, if path.OffRunq? then AddDowngrade(j) else Running(j), lck)
    case AddDowngrade(j) => Put(s.(parallel := s.parallel + 1), f, DropSingle(j), lck)
    case DropSingle(j) => Put(s.(single := false), f, Running(j), Parallel)
    case Running(j) =>
      Put(s.(jobs := s.jobs[j := s.jobs[j].(running := false)]), f,
          if !s.types[j].once && s.jobs[j].active then Linking(s, j, Release) else Unlock, lck)
    case LinkParallel(j, q) => Put(s.(prunq := LinkBack(s.prunq, j)), f, LinkRunq(j, q), lck)
    case LinkRunq(j, q) =>
      Put(s.(runq := LinkBack(s.runq, j)), f,
          if q.Release? then Unlock else if q.Relock? then Asking(s, j) else Idle, lck)
    case Unlock =>
      match lck
      case Single => Put(s.(single := false), f, Idle, Unlocked)
      case Parallel => Put(s.(parallel := s.parallel - 1), f, Idle, Unlocked)
      case Unlocked => Put(s, f, Idle, Unlocked)
  }

  function Apply(s: State, a: Action): State
    requires Shaped(s) && Enabled(s, a)
  {
    match a
    case Activate(f, j, immed) =>
      var again := immed && !s.types[j].noAid;
      Put(s.(jobs := s.jobs[j := s.jobs[j].(active := true)]), f,
          if !s.jobs[j].running && !s.jobs[j].active then Linking(s, j, if again then Relock else Return)
          else if again then Asking(s, j) else Idle, Unlocked)
    case Deactivate(j) => s.(jobs := s.jobs[j := s.jobs[j].(active := false)])
    case LockWorkq(f) => Put(s, f, TakeSingle(AnyJob), Unlocked)
    case LockJob(f, j) => Put(s, f, Asking(s, j), Unlocked)
    case Step(f) => Advance(s, f)
  }

  /** The constructor of `workq_job` refuses a job that is of type ONCE and of type PERSIST. */
  predicate Legal(t: JobType) { !(t.once && t.persist) }

  predicate Init(s: State) {
    && (forall j :: 0 <= j < |s.types| ==> Legal(s.types[j]))
    && Shaped(s) && !s.single && s.parallel == 0 && s.runq == s.prunq == []
    && (forall j :: 0 <= j < |s.jobs| ==> s.jobs[j] == Job(false, false))
    && (forall f :: 0 <= f < |s.frames| ==> s.frames[f] == Frame(Idle, Unlocked))
  }

  ghost predicate StepAt(b: seq<State>, k: nat)
    requires k + 1 < |b|
  {
    Shaped(b[k]) && exists a :: Enabled(b[k], a) && b[k + 1] == Apply(b[k], a)
  }

  ghost predicate Behavior(b: seq<State>) {
    b != [] && Init(b[0]) && forall k :: 0 <= k < |b| - 1 ==> StepAt(b, k)
  }

  // ---------------------------------------------------------------- invariant

  /** The frame owns the RUNNING bit of its job. */
  predicate Owning(at: Stage) {
    at.EraseRunq? || at.EraseParallel? || at.AddDowngrade? || at.DropSingle? || at.Running?
  }

  function Owns(j: nat): Frame -> int { (f: Frame) => if Owning(f.at) && f.at.j == j then 1 else 0 }

  function HoldsSingle(): Frame -> int { (f: Frame) => if f.lck.Single? then 1 else 0 }

  function HoldsParallel(): Frame -> int { (f: Frame) => if f.lck.Parallel? || f.at.DropSingle? then 1 else 0 }

  /**
   * The lock of a frame fits what it is doing: in particular, a job
   * that is not parallel is run under RUN_SINGLE only.
   */
  predicate FrameOk(s: State, f: Frame)
    requires Shaped(s) && JobOf(s, f.at)
  {
    && (f.at.Idle? || f.at.TakeSingle? || f.at.AddParallel? ==> f.lck.Unlocked?)
    && (f.at.LinkParallel? || f.at.LinkRunq? ==> (f.lck.Unlocked? <==> !f.at.sequel.Release?))
    && (f.at.Pop? || f.at.TryJob? || f.at.Unlock? || Owning(f.at) ==> !f.lck.Unlocked?)
    && (f.at.TryJob? && !f.lck.Single? ==> s.types[f.at.j].parallel && !f.at.path.OffRunq?)
    && (Owning(f.at) && !f.lck.Single? ==> s.types[f.at.j].parallel)
    && (f.at.AddDowngrade? || f.at.DropSingle? ==> f.lck.Single? && s.types[f.at.j].parallel)
    && (f.at.EraseParallel? && f.at.path.OffRunq? ==> f.lck.Single?)
    && (f.at.EraseParallel? ==> s.types[f.at.j].parallel)
    && (f.at.LinkParallel? ==> s.types[f.at.j].parallel)
    && (f.at.TryJob? && f.lck.Single? ==> !f.at.path.OffParallelRunq?)
  }

  /** A frame will put the job on `m_runq`, or took it off to try and lock it. */
  predicate Carries(at: Stage, j: nat) {
    at == LinkParallel(j, Return) || at == LinkParallel(j, Relock) || at == LinkParallel(j, Release)
    || at == LinkRunq(j, Return) || at == LinkRunq(j, Relock) || at == LinkRunq(j, Release) || at == TryJob(j, OffRunq)
  }

  /** An activation is forgotten: the job waits to be run, and nothing will run it. */
  ghost predicate Forgotten(s: State, j: nat) {
    && Lockable(s.jobs, j) && j !in s.runq
    && forall f: nat :: f < |s.frames| ==> !Carries(s.frames[f].at, j)
  }

  ghost predicate Inv(s: State) {
    && Shaped(s)
    && Sum(s.frames, HoldsSingle()) == (if s.single then 1 else 0)
    && Sum(s.frames, HoldsParallel()) == s.parallel
    && (forall j: nat :: j < |s.jobs| ==> Sum(s.frames, Owns(j)) == if s.jobs[j].running then 1 else 0)
    && (forall f: nat :: f < |s.frames| ==> FrameOk(s, s.frames[f]))
    && (forall x :: x in s.prunq ==> s.types[x].parallel)
    && (forall j: nat :: j < |s.jobs| && !s.types[j].once ==> !Forgotten(s, j))
  }

  // ---------------------------------------------------------------- preservation

  /** What a step does to the run queues: only the job at hand comes or goes. */
  lemma QueuesOf(s: State, f: nat)
    requires Inv(s) && Enabled(s, Step(f))
    ensures var s', at := Advance(s, f), s.frames[f].at;
      && (forall x :: x in s'.runq ==> x in s.runq || (at.LinkRunq? && x == at.j))
      && (forall x :: x in s'.prunq ==> x in s.prunq || (at.LinkParallel? && x == at.j))
      && (forall x :: x in s.runq ==>
        x in s'.runq || (at.EraseRunq? && x == at.j) || s'.frames[f].at == TryJob(x, OffRunq))
      && (at.LinkRunq? ==> at.j in s'.runq)
      && (at.Pop? && s'.frames[f].at.TryJob? ==>
            if s.frames[f].lck.Single? then s'.frames[f].at.j in s.runq else s'.frames[f].at.j in s.prunq)
  {
    var at := s.frames[f].at;
    assert FrameOk(s, s.frames[f]);
    if at.EraseRunq? || at.EraseParallel? {
      WithoutOthers(s.runq, at.j);
      WithoutOthers(s.prunq, at.j);
    }
    if at.Pop? {
      assert s.runq != [] ==> s.runq == [s.runq[0]] + s.runq[1..];
      assert s.prunq != [] ==> s.prunq == [s.prunq[0]] + s.prunq[1..];
    }
  }

  /** A step of frame `f`: the other frames stay, and so do the jobs there are. */
  predicate StepOf(s: State, s': State, f: nat) {
    && f < |s.frames| && |s'.frames| == |s.frames| && s'.types == s.types && |s'.jobs| == |s.jobs|
    && s'.frames == s.frames[f := s'.frames[f]]
  }

  function Bit(b: bool): int { if b then 1 else 0 }

  lemma AdvanceFrame(s: State, f: nat)
    requires Inv(s) && Enabled(s, Step(f))
    ensures var s' := Advance(s, f);
      StepOf(s, s', f) && JobOf(s, s'.frames[f].at)
  {
    AdvanceStepOf(s, f);
    if s.frames[f].at.Pop? {
      QueuesOf(s, f);
    } else {
      AdvanceJobOf(s, f);
    }
  }

  lemma AdvanceStepOf(s: State, f: nat)
    requires Shaped(s) && Enabled(s, Step(f))
    ensures StepOf(s, Advance(s, f), f)
  {
    assert JobOf(s, s.frames[f].at);
  }

  lemma AdvanceJobOf(s: State, f: nat)
    requires Shaped(s) && Enabled(s, Step(f)) && !s.frames[f].at.Pop?
    ensures f < |Advance(s, f).frames| && JobOf(s, Advance(s, f).frames[f].at)
  {
    assert JobOf(s, s.frames[f].at);
  }

  lemma AdvanceLocking(s: State, f: nat)
    requires Inv(s) && Enabled(s, Step(f)) && !Owning(s.frames[f].at)
    ensures |Advance(s, f).frames| == |s.frames| && JobOf(s, Advance(s, f).frames[f].at)
    ensures FrameOk(s, Advance(s, f).frames[f])
  {
    assert FrameOk(s, s.frames[f]);
    AdvanceFrame(s, f);
    if s.frames[f].at.Pop? {
      QueuesOf(s, f);
    }
  }

  lemma AdvanceOwning(s: State, f: nat)
    requires Inv(s) && Enabled(s, Step(f)) && Owning(s.frames[f].at)
    ensures |Advance(s, f).frames| == |s.frames| && JobOf(s, Advance(s, f).frames[f].at)
    ensures FrameOk(s, Advance(s, f).frames[f])
  {
    assert FrameOk(s, s.frames[f]);
    AdvanceFrame(s, f);
  }

  lemma AdvanceLocks(s: State, f: nat)
    requires Inv(s) && Enabled(s, Step(f)) && (s.frames[f].lck.Single? ==> s.single)
    ensures var s', fr := Advance(s, f), s.frames[f];
      && HoldsSingle()(s'.frames[f]) - HoldsSingle()(fr) == Bit(s'.single) - Bit(s.single)
      && HoldsParallel()(s'.frames[f]) - HoldsParallel()(fr) == s'.parallel - s.parallel
  {
    assert FrameOk(s, s.frames[f]);
  }

  lemma AdvanceJobs(s: State, f: nat, j: nat)
    requires Inv(s) && Enabled(s, Step(f)) && j < |s.jobs|
      && (Owning(s.frames[f].at) && s.frames[f].at.j == j ==> s.jobs[j].running)
    ensures var s', fr := Advance(s, f), s.frames[f];
      |s'.jobs| == |s.jobs| && Owns(j)(s'.frames[f]) - Owns(j)(fr) == Bit(s'.jobs[j].running) - Bit(s.jobs[j].running)
  {
    assert FrameOk(s, s.frames[f]) && JobOf(s, s.frames[f].at);
  }

  /** The frame is about to unlock a job of type ONCE that was activated while it ran. */
  predicate Forgets(s: State, f: nat, j: nat) {
    f < |s.frames| && j < |s.jobs| && j < |s.types| && s.frames[f].at == Running(j)
    && s.types[j].once && s.jobs[j].active
  }

  lemma AdvancePending(s: State, f: nat, j: nat)
    requires Inv(s) && Enabled(s, Step(f)) && j < |s.jobs| && !Forgets(s, f, j)
      && (Owning(s.frames[f].at) && s.frames[f].at.j == j ==> s.jobs[j].running)
    ensures var s', at := Advance(s, f), s.frames[f].at;
      |s'.jobs| == |s.jobs|
      && (&& Lockable(s'.jobs, j) && j !in s'.runq && !Carries(s'.frames[f].at, j) ==>
            Lockable(s.jobs, j) && j !in s.runq && !Carries(at, j))
  {
    QueuesOf(s, f);
    assert FrameOk(s, s.frames[f]) && JobOf(s, s.frames[f].at);
  }

  /** What a step that keeps its own frame in order keeps of the sums. */
  lemma LocksOfStep(s: State, s': State, f: nat)
    requires Inv(s) && StepOf(s, s', f)
    requires HoldsSingle()(s'.frames[f]) - HoldsSingle()(s.frames[f]) == Bit(s'.single) - Bit(s.single)
    requires HoldsParallel()(s'.frames[f]) - HoldsParallel()(s.frames[f]) == s'.parallel - s.parallel
    ensures Sum(s'.frames, HoldsSingle()) == (if s'.single then 1 else 0)
      && Sum(s'.frames, HoldsParallel()) == s'.parallel
  {
    SumUpdate(s.frames, f, s'.frames[f], HoldsSingle());
    SumUpdate(s.frames, f, s'.frames[f], HoldsParallel());
  }

  lemma OwnersOfStep(s: State, s': State, f: nat, j: nat)
    requires Inv(s) && StepOf(s, s', f) && j < |s.jobs|
    requires Owns(j)(s'.frames[f]) - Owns(j)(s.frames[f]) == Bit(s'.jobs[j].running) - Bit(s.jobs[j].running)
    ensures Sum(s'.frames, Owns(j)) == if s'.jobs[j].running then 1 else 0
  {
    SumUpdate(s.frames, f, s'.frames[f], Owns(j));
  }

  lemma FramesOfStep(s: State, s': State, f: nat)
    requires Inv(s) && StepOf(s, s', f) && JobOf(s, s'.frames[f].at) && FrameOk(s, s'.frames[f])
    requires (forall x :: x in s'.runq ==> x < |s.jobs|) && (forall x :: x in s'.prunq ==> x < |s.jobs|)
    ensures Shaped(s') && forall g: nat :: g < |s'.frames| ==> FrameOk(s', s'.frames[g])
  {
    forall g | 0 <= g < |s'.frames|
      ensures JobOf(s', s'.frames[g].at)
    {
      assert JobOf(s, s.frames[g].at);
    }
    forall g: nat | g < |s'.frames|
      ensures FrameOk(s', s'.frames[g])
    {
      assert FrameOk(s, s.frames[g]);
    }
  }

  lemma ForgottenBefore(s: State, s': State, f: nat, j: nat)
    requires StepOf(s, s', f) && j < |s.jobs| && Forgotten(s', j)
    requires && Lockable(s'.jobs, j) && j !in s'.runq && !Carries(s'.frames[f].at, j) ==>
               Lockable(s.jobs, j) && j !in s.runq && !Carries(s.frames[f].at, j)
    ensures Forgotten(s, j)
  {
    forall g: nat | g < |s.frames|
      ensures !Carries(s.frames[g].at, j)
    {
      assert !Carries(s'.frames[g].at, j);
    }
  }

  lemma OwnedIsRunning(s: State, f: nat)
    requires Inv(s) && f < |s.frames|
    ensures s.frames[f].lck.Single? ==> s.single
    ensures Owning(s.frames[f].at) ==> s.frames[f].at.j < |s.jobs| && s.jobs[s.frames[f].at.j].running
  {
    SumDominates(s.frames, f, HoldsSingle());
    if Owning(s.frames[f].at) {
      assert JobOf(s, s.frames[f].at);
      SumDominates(s.frames, f, Owns(s.frames[f].at.j));
    }
  }

  lemma AdvanceKeepsInv(s: State, f: nat)
    requires Inv(s) && Enabled(s, Step(f))
    ensures Inv(Advance(s, f))
  {
    var s' := Advance(s, f);
    OwnedIsRunning(s, f);
    QueuesOf(s, f);
    AdvanceFrame(s, f);
    if Owning(s.frames[f].at) {
      AdvanceOwning(s, f);
    } else {
      AdvanceLocking(s, f);
    }
    AdvanceLocks(s, f);
    assert FrameOk(s, s.frames[f]) && JobOf(s, s.frames[f].at);
    StepKeeps(s, s', f);
    forall j: nat | j < |s.jobs|
      ensures Sum(s'.frames, Owns(j)) == if s'.jobs[j].running then 1 else 0
    {
      AdvanceJobs(s, f, j);
      OwnersOfStep(s, s', f, j);
    }
    forall j: nat | j < |s.jobs| && !s.types[j].once
      ensures !Forgotten(s', j)
    {
      if Forgotten(s', j) {
        StepForgets(s, Step(f), j);
      }
    }
  }

  /** The only step that forgets an activation is that of unlocking a job of type ONCE that is active again. */
  lemma StepForgets(s: State, a: Action, j: nat)
    requires Inv(s) && Enabled(s, a) && Forgotten(Apply(s, a), j)
    ensures Forgotten(s, j) || (a.Step? && Forgets(s, a.f, j))
  {
    var s' := Apply(s, a);
    if a.Deactivate? {
      forall g: nat | g < |s.frames|
        ensures !Carries(s.frames[g].at, j)
      {
        assert !Carries(s'.frames[g].at, j);
      }
    } else if a.Step? {
      if !Forgets(s, a.f, j) {
        AdvanceFrame(s, a.f);
        OwnedIsRunning(s, a.f);
        AdvancePending(s, a.f, j);
        ForgottenBefore(s, s', a.f, j);
      }
    } else {
      EnterForgets(s, a, j);
    }
  }

  lemma EnterForgets(s: State, a: Action, j: nat)
    requires Inv(s) && Enabled(s, a) && (a.Activate? || a.LockWorkq? || a.LockJob?) && Forgotten(Apply(s, a), j)
    ensures Forgotten(s, j)
  {
    assert !Carries(Apply(s, a).frames[a.f].at, j);
    ForgottenBefore(s, Apply(s, a), a.f, j);
  }

  lemma StepKeeps(s: State, s': State, f: nat)
    requires Inv(s) && StepOf(s, s', f) && JobOf(s, s'.frames[f].at) && FrameOk(s, s'.frames[f])
    requires HoldsSingle()(s'.frames[f]) - HoldsSingle()(s.frames[f]) == Bit(s'.single) - Bit(s.single)
    requires HoldsParallel()(s'.frames[f]) - HoldsParallel()(s.frames[f]) == s'.parallel - s.parallel
    requires forall x :: x in s'.runq ==> x in s.runq || x < |s.jobs|
    requires forall x :: x in s'.prunq ==> x in s.prunq || (x < |s.jobs| && s.types[x].parallel)
    ensures Shaped(s') && forall g: nat :: g < |s'.frames| ==> FrameOk(s', s'.frames[g])
    ensures Sum(s'.frames, HoldsSingle()) == (if s'.single then 1 else 0)
      && Sum(s'.frames, HoldsParallel()) == s'.parallel
    ensures forall x :: x in s'.prunq ==> s'.types[x].parallel
  {
    FramesOfStep(s, s', f);
    LocksOfStep(s, s', f);
  }

  /** A frame that enters `activate` or `lock`, holding nothing. */
  lemma EnterKeepsInv(s: State, a: Action, f: nat)
    requires Inv(s) && Enabled(s, a) && (a.Activate? || a.LockWorkq? || a.LockJob?) && a.f == f
    ensures Inv(Apply(s, a))
  {
    var s' := Apply(s, a);
    assert FrameOk(s, s.frames[f]) && JobOf(s, s.frames[f].at);
    StepKeeps(s, s', f);
    forall j: nat | j < |s.jobs|
      ensures Sum(s'.frames, Owns(j)) == if s'.jobs[j].running then 1 else 0
    {
      OwnersOfStep(s, s', f, j);
    }
    forall j: nat | j < |s.jobs| && !s.types[j].once
      ensures !Forgotten(s', j)
    {
      if Forgotten(s', j) {
        StepForgets(s, a, j);
      }
    }
  }

  lemma DeactivateKeepsInv(s: State, j: nat)
    requires Inv(s) && Enabled(s, Deactivate(j))
    ensures Inv(Apply(s, Deactivate(j)))
  {
    var s' := Apply(s, Deactivate(j));
    forall g | 0 <= g < |s'.frames|
      ensures JobOf(s', s'.frames[g].at) && FrameOk(s', s'.frames[g])
    {
      assert JobOf(s, s.frames[g].at) && FrameOk(s, s.frames[g]);
    }
    forall i: nat | i < |s'.jobs| && !s.types[i].once
      ensures !Forgotten(s', i)
    {
      if Forgotten(s', i) {
        StepForgets(s, Deactivate(j), i);
      }
    }
  }

  lemma {:induction false} InvAlways(b: seq<State>, k: nat)
    requires Behavior(b) && k < |b|
    ensures Inv(b[k])
  {
    if k == 0 {
      SumZero(b[0].frames, HoldsSingle());
      SumZero(b[0].frames, HoldsParallel());
      forall j: nat | j < |b[0].jobs|
        ensures Sum(b[0].frames, Owns(j)) == 0
      {
        SumZero(b[0].frames, Owns(j));
      }
    } else {
      InvAlways(b, k - 1);
      assert StepAt(b, k - 1);
      var a :| Enabled(b[k - 1], a) && b[k] == Apply(b[k - 1], a);
      StepKeepsInv(b[k - 1], a);
    }
  }

  lemma StepKeepsInv(s: State, a: Action)
    requires Inv(s) && Enabled(s, a)
    ensures Inv(Apply(s, a))
  {
    match a
    case Activate(f, _, _) => EnterKeepsInv(s, a, f);
    case Deactivate(j) => DeactivateKeepsInv(s, j);
    case LockWorkq(f) => EnterKeepsInv(s, a, f);
    case LockJob(f, _) => EnterKeepsInv(s, a, f);
    case Step(f) => AdvanceKeepsInv(s, f);
  }

  // ---------------------------------------------------------------- theorems

  /**
   * `m_run_single` is set exactly while one frame holds RUN_SINGLE,
   * `m_run_parallel` counts the holders of RUN_PARALLEL.
   */
  lemma LockWordsCountHolders(b: seq<State>, k: nat)
    requires Behavior(b) && k < |b|
    ensures Sum(b[k].frames, HoldsSingle()) == (if b[k].single then 1 else 0)
    ensures Sum(b[k].frames, HoldsParallel()) == b[k].parallel
    ensures forall f: nat, g: nat :: f < g < |b[k].frames| ==>
      !(b[k].frames[f].lck.Single? && b[k].frames[g].lck.Single?)
  {
    InvAlways(b, k);
    forall f: nat, g: nat | f < g < |b[k].frames|
      ensures !(b[k].frames[f].lck.Single? && b[k].frames[g].lck.Single?)
    {
      SumDominatesPair(b[k].frames, f, g, HoldsSingle());
    }
  }

  /** Exclusion: two frames never run jobs at the same time that are not parallel, and no job runs in two frames. */
  lemma Exclusion(b: seq<State>, k: nat, f: nat, g: nat)
    requires Behavior(b) && k < |b| && f < g < |b[k].frames|
    requires Owning(b[k].frames[f].at) && Owning(b[k].frames[g].at)
    ensures var i, j := b[k].frames[f].at.j, b[k].frames[g].at.j;
      && i < |b[k].types| && j < |b[k].types| && i != j
      && (b[k].types[i].parallel || b[k].types[j].parallel)
  {
    var s := b[k];
    InvAlways(b, k);
    assert FrameOk(s, s.frames[f]) && FrameOk(s, s.frames[g]) && JobOf(s, s.frames[f].at) && JobOf(s, s.frames[g].at);
    SumDominatesPair(s.frames, f, g, HoldsSingle());
    SumDominatesPair(s.frames, f, g, Owns(s.frames[f].at.j));
  }

  /** A job has STATE_RUNNING exactly while a frame owns it. */
  lemma RunningHasAFrame(b: seq<State>, k: nat, j: nat)
    requires Behavior(b) && k < |b| && j < |b[k].jobs|
    ensures Sum(b[k].frames, Owns(j)) == if b[k].jobs[j].running then 1 else 0
  {
    InvAlways(b, k);
  }

  /**
   * No lost activation: a job that is active and not running, unless it is of type ONCE, is on
   * `m_runq`, or a frame is about to put it there, or took it off and is about to lock it.
   */
  lemma NoLostActivation(b: seq<State>, k: nat, j: nat)
    requires Behavior(b) && k < |b| && j < |b[k].jobs| && j < |b[k].types|
    requires b[k].jobs[j].active && !b[k].jobs[j].running && !b[k].types[j].once
    ensures j in b[k].runq || exists f: nat :: f < |b[k].frames| && Carries(b[k].frames[f].at, j)
  {
    InvAlways(b, k);
    assert !Forgotten(b[k], j);
  }

  /**
   * What becomes of activations of any job: one is forgotten only where a job of type ONCE is unlocked
   * that was activated while it ran, at step `i`.
   */
  lemma {:induction false} ForgottenByUnlock(b: seq<State>, k: nat, j: nat) returns (i: nat, f: nat)
    requires Behavior(b) && k < |b| && Forgotten(b[k], j)
    ensures i < k && Forgets(b[i], f, j) && j < |b[i + 1].jobs| && b[i + 1].jobs[j] == Job(false, true)
  {
    assert k > 0;
    if Forgotten(b[k - 1], j) {
      i, f := ForgottenByUnlock(b, k - 1, j);
    } else {
      i := k - 1;
      f := ForgottenNow(b, i, j);
    }
  }

  lemma ForgottenNow(b: seq<State>, i: nat, j: nat) returns (f: nat)
    requires Behavior(b) && i + 1 < |b| && Forgotten(b[i + 1], j) && !Forgotten(b[i], j)
    ensures Forgets(b[i], f, j) && j < |b[i + 1].jobs| && b[i + 1].jobs[j] == Job(false, true)
  {
    assert StepAt(b, i);
    var a :| Enabled(b[i], a) && b[i + 1] == Apply(b[i], a);
    InvAlways(b, i);
    StepForgets(b[i], a, j);
    f := a.f;
  }

  /** Nothing activates the job while it runs. */
  ghost predicate NeverReactivated(b: seq<State>, k: nat, j: nat) {
    forall i: nat :: i + 1 < |b| && i < k && j < |b[i].jobs| && j < |b[i + 1].jobs| && b[i].jobs[j].running ==>
      b[i + 1].jobs[j].active ==> b[i].jobs[j].active
  }

  lemma {:induction false} RunningIsSpent(b: seq<State>, k: nat, j: nat)
    requires Behavior(b) && k < |b| && j < |b[k].jobs| == |b[k].types| && !b[k].types[j].persist
      && NeverReactivated(b, k, j)
    ensures b[k].jobs[j].running ==> !b[k].jobs[j].active
  {
    if k > 0 {
      assert StepAt(b, k - 1);
      var a :| Enabled(b[k - 1], a) && b[k] == Apply(b[k - 1], a);
      StepSpends(b[k - 1], a, j);
      RunningIsSpent(b, k - 1, j);
    }
  }

  lemma StepSpends(s: State, a: Action, j: nat)
    requires Shaped(s) && Enabled(s, a) && j < |s.jobs| && !s.types[j].persist
    ensures var s' := Apply(s, a);
      && |s'.jobs| == |s.jobs| && s'.types == s.types
      && (s'.jobs[j].running && !s.jobs[j].running ==> !s'.jobs[j].active)
  {
    if a.Step? {
      assert JobOf(s, s.frames[a.f].at);
    }
  }

  /** An activation of a job of type ONCE is kept in every run that does not activate it while it runs. */
  lemma OnceActivationIsKept(b: seq<State>, k: nat, j: nat)
    requires Behavior(b) && k < |b| && j < |b[k].jobs| == |b[k].types|
    requires b[k].types[j].once && NeverReactivated(b, k, j)
    ensures !Forgotten(b[k], j)
  {
    TypesStay(b, 0, k);
    if Forgotten(b[k], j) {
      var i, f := ForgottenByUnlock(b, k, j);
      TypesStay(b, i, k);
      RunningIsSpent(b, i, j);
      InvAlways(b, i);
      OwnedIsRunning(b[i], f);
    }
  }

  lemma {:induction false} TypesStay(b: seq<State>, i: nat, k: nat)
    requires Behavior(b) && i <= k < |b|
    ensures b[k].types == b[i].types && |b[k].jobs| == |b[i].jobs|
    decreases k - i
  {
    if i < k {
      TypesStay(b, i, k - 1);
      assert StepAt(b, k - 1);
      var a :| Enabled(b[k - 1], a) && b[k] == Apply(b[k - 1], a);
      StepTypes(b[k - 1], a);
    }
  }

  lemma StepTypes(s: State, a: Action)
    requires Shaped(s) && Enabled(s, a)
    ensures Apply(s, a).types == s.types && |Apply(s, a).jobs| == |s.jobs|
  {
    if a.Step? {
      AdvanceStepOf(s, a.f);
    }
  }

  /**
   * When no frame is doing anything, every active job that may run
   * again is on `m_runq`, and both lock words are clear.
   */
  lemma QuietWorkq(b: seq<State>, k: nat, j: nat)
    requires Behavior(b) && k < |b| && j < |b[k].jobs| && j < |b[k].types|
    requires forall f :: 0 <= f < |b[k].frames| ==> b[k].frames[f].at.Idle?
    ensures !b[k].single && b[k].parallel == 0 && !b[k].jobs[j].running
    ensures b[k].jobs[j].active && !b[k].types[j].once ==> j in b[k].runq
  {
    var s := b[k];
    InvAlways(b, k);
    forall f: nat | f < |s.frames|
      ensures HoldsSingle()(s.frames[f]) == 0 && HoldsParallel()(s.frames[f]) == 0
    {
      assert FrameOk(s, s.frames[f]);
    }
    SumZero(s.frames, HoldsSingle());
    SumZero(s.frames, HoldsParallel());
    SumZero(s.frames, Owns(j));
    if s.jobs[j].active && !s.types[j].once {
      NoLostActivation(b, k, j);
    }
  }

  /** The queue `r` is `q` without `j`, the others in their order. */
  ghost predicate Drops(q: seq<nat>, r: seq<nat>, j: nat) {
    && (forall y :: y in r <==> y in q && y != j)
    && (forall y, z :: Before(r, y, z) <==> y != j && z != j && Before(q, y, z))
  }

  /**
   * The run queues are queues: a job comes in behind all others, or stays where it is; a frame that
   * looks for a job takes the first one; a job that is locked by other ways is taken off, and the
   * others keep their order. Nothing else happens to them.
   */
  lemma JobsQueueUp(b: seq<State>, k: nat, a: Action)
    requires Behavior(b) && k < |b| && Shaped(b[k]) && Enabled(b[k], a)
    ensures var s, s' := b[k], Apply(b[k], a);
      if !a.Step? then s'.runq == s.runq && s'.prunq == s.prunq
      else
        var at, at', single := s.frames[a.f].at, s'.frames[a.f].at, s.frames[a.f].lck.Single?;
        && (if at.LinkRunq? then s'.runq == s.runq + (if at.j in s.runq then [] else [at.j])
            else if at.Pop? && single && s.runq != [] then s.runq == [at'.j] + s'.runq && at' == TryJob(at'.j, OffRunq)
            else if at.EraseRunq? then Drops(s.runq, s'.runq, at.j)
            else s'.runq == s.runq)
        && (if at.LinkParallel? then s'.prunq == s.prunq + (if at.j in s.prunq then [] else [at.j])
            else if at.Pop? && !single && s.prunq != [] then
              s.prunq == [at'.j] + s'.prunq && at' == TryJob(at'.j, OffParallelRunq)
            else if at.EraseParallel? then Drops(s.prunq, s'.prunq, at.j)
            else s'.prunq == s.prunq)
  {
    if a.Step? {
      var at := b[k].frames[a.f].at;
      if at.EraseRunq? {
        WithoutDrops(b[k].runq, at.j);
      } else if at.EraseParallel? {
        WithoutDrops(b[k].prunq, at.j);
      }
    }
  }

  lemma WithoutDrops(q: seq<nat>, j: nat)
    ensures Drops(q, Without(q, j), j)
  {
    WithoutOthers(q, j);
    forall y, z
      ensures Before(Without(q, j), y, z) <==> y != j && z != j && Before(q, y, z)
    {
      WithoutKeepsOrder(q, j, y, z);
    }
  }

  /** The assertions on what the lock words and the state word were when a lock or a job is given up. */
  lemma AssertionsHold(b: seq<State>, k: nat, f: nat)
    requires Behavior(b) && k < |b| && f < |b[k].frames|
    ensures var s, fr := b[k], b[k].frames[f];
      && (fr.lck.Single? ==> s.single)
      && (fr.lck.Parallel? || fr.at.DropSingle? ==> 0 < s.parallel)
      && (Owning(fr.at) ==> fr.at.j < |s.jobs| && s.jobs[fr.at.j].running)
  {
    InvAlways(b, k);
    OwnedIsRunning(b[k], f);
    SumDominates(b[k].frames, f, HoldsParallel());
  }

  /** A step is a run when it follows one. */
  lemma Extend(b: seq<State>, a: Action)
    requires Behavior(b) && Shaped(b[|b| - 1]) && Enabled(b[|b| - 1], a)
    ensures Behavior(b + [Apply(b[|b| - 1], a)])
  {
    var b' := b + [Apply(b[|b| - 1], a)];
    forall k | 0 <= k < |b'| - 1
      ensures StepAt(b', k)
    {
      if k < |b| - 1 {
        assert StepAt(b, k);
      }
    }
  }

  /** A workq with one job and two frames. */
  function Small(t: JobType, job: Job, single: bool, parallel: nat, runq: seq<nat>, prunq: seq<nat>, f: Frame): State {
    State([t], [job], single, parallel, runq, prunq, [f, Frame(Idle, Unlocked)])
  }

  lemma Play(b: seq<State>, a: Action, s': State) returns (b': seq<State>)
    requires Behavior(b) && Shaped(b[|b| - 1]) && Enabled(b[|b| - 1], a) && Apply(b[|b| - 1], a) == s'
    ensures Behavior(b') && b'[|b'| - 1] == s'
  {
    Extend(b, a);
    b' := b + [s'];
  }

  /** The first frame activates the job and puts it on `m_runq`. */
  lemma SingleActivated(t: JobType) returns (b: seq<State>)
    requires Legal(t) && !t.parallel
    ensures Behavior(b) && b[|b| - 1] == Small(t, Job(false, true), false, 0, [0], [], Frame(Idle, Unlocked))
  {
    b := [Small(t, Job(false, false), false, 0, [], [], Frame(Idle, Unlocked))];
    b := Play(b, Activate(0, 0, false),
              Small(t, Job(false, true), false, 0, [], [], Frame(LinkRunq(0, Return), Unlocked)));
    b := Play(b, Step(0), Small(t, Job(false, true), false, 0, [0], [], Frame(Idle, Unlocked)));
  }

  /** Then it locks the workq and runs the job. */
  lemma SingleRunning(t: JobType) returns (b: seq<State>)
    requires Legal(t) && !t.parallel && t.once
    ensures Behavior(b) && b[|b| - 1] == Small(t, Job(true, false), true, 0, [], [], Frame(Running(0), Single))
  {
    b := SingleActivated(t);
    b := Play(b, LockWorkq(0), Small(t, Job(false, true), false, 0, [0], [], Frame(TakeSingle(AnyJob), Unlocked)));
    b := Play(b, Step(0), Small(t, Job(false, true), true, 0, [0], [], Frame(Pop, Single)));
    b := Play(b, Step(0), Small(t, Job(false, true), true, 0, [], [], Frame(TryJob(0, OffRunq), Single)));
    b := Play(b, Step(0), Small(t, Job(true, false), true, 0, [], [], Frame(Running(0), Single)));
  }

  lemma ParallelQueued(t: JobType) returns (b: seq<State>)
    requires Legal(t) && t.parallel
    ensures Behavior(b)
    ensures b[|b| - 1] == Small(t, Job(false, true), false, 0, [], [], Frame(LinkParallel(0, Return), Unlocked))
  {
    b := [Small(t, Job(false, false), false, 0, [], [], Frame(Idle, Unlocked))];
    b := Play(b, Activate(0, 0, false),
              Small(t, Job(false, true), false, 0, [], [], Frame(LinkParallel(0, Return), Unlocked)));
  }

  /** The same for a parallel job, which goes on both run queues. */
  lemma ParallelActivated(t: JobType) returns (b: seq<State>)
    requires Legal(t) && t.parallel
    ensures Behavior(b) && b[|b| - 1] == Small(t, Job(false, true), false, 0, [0], [0], Frame(Idle, Unlocked))
  {
    b := ParallelQueued(t);
    b := Play(b, Step(0), Small(t, Job(false, true), false, 0, [], [0], Frame(LinkRunq(0, Return), Unlocked)));
    b := Play(b, Step(0), Small(t, Job(false, true), false, 0, [0], [0], Frame(Idle, Unlocked)));
  }

  lemma ParallelTaken(t: JobType) returns (b: seq<State>)
    requires Legal(t) && t.parallel && t.once
    ensures Behavior(b)
    ensures b[|b| - 1] == Small(t, Job(true, false), true, 0, [], [0], Frame(EraseParallel(0, OffRunq), Single))
  {
    b := ParallelActivated(t);
    b := Play(b, LockWorkq(0), Small(t, Job(false, true), false, 0, [0], [0], Frame(TakeSingle(AnyJob), Unlocked)));
    b := Play(b, Step(0), Small(t, Job(false, true), true, 0, [0], [0], Frame(Pop, Single)));
    b := Play(b, Step(0), Small(t, Job(false, true), true, 0, [], [0], Frame(TryJob(0, OffRunq), Single)));
    b := Play(b, Step(0), Small(t, Job(true, false), true, 0, [], [0], Frame(EraseParallel(0, OffRunq), Single)));
  }

  lemma ParallelErased(t: JobType) returns (b: seq<State>)
    requires Legal(t) && t.parallel && t.once
    ensures Behavior(b) && b[|b| - 1] == Small(t, Job(true, false), true, 0, [], [], Frame(AddDowngrade(0), Single))
  {
    assert Without([0], 0) == [] by {
      assert [0][1..] == [];
    }
    b := ParallelTaken(t);
    b := Play(b, Step(0), Small(t, Job(true, false), true, 0, [], [], Frame(AddDowngrade(0), Single)));
  }

  lemma ParallelRunning(t: JobType) returns (b: seq<State>)
    requires Legal(t) && t.parallel && t.once
    ensures Behavior(b) && b[|b| - 1] == Small(t, Job(true, false), false, 1, [], [], Frame(Running(0), Parallel))
  {
    b := ParallelErased(t);
    b := Play(b, Step(0), Small(t, Job(true, false), true, 1, [], [], Frame(DropSingle(0), Single)));
    b := Play(b, Step(0), Small(t, Job(true, false), false, 1, [], [], Frame(Running(0), Parallel)));
  }

  lemma SingleIsForgotten(t: JobType) returns (b: seq<State>)
    requires Legal(t) && t.once && !t.parallel
    ensures Behavior(b) && b[|b| - 1] == Small(t, Job(false, true), true, 0, [], [], Frame(Unlock, Single))
  {
    b := SingleRunning(t);
    b := Play(b, Activate(1, 0, false), Small(t, Job(true, true), true, 0, [], [], Frame(Running(0), Single)));
    b := Play(b, Step(0), Small(t, Job(false, true), true, 0, [], [], Frame(Unlock, Single)));
  }

  lemma ParallelIsForgotten(t: JobType) returns (b: seq<State>)
    requires Legal(t) && t.once && t.parallel
    ensures Behavior(b) && b[|b| - 1] == Small(t, Job(false, true), false, 1, [], [], Frame(Unlock, Parallel))
  {
    b := ParallelRunning(t);
    b := Play(b, Activate(1, 0, false), Small(t, Job(true, true), false, 1, [], [], Frame(Running(0), Parallel)));
    b := Play(b, Step(0), Small(t, Job(false, true), false, 1, [], [], Frame(Unlock, Parallel)));
  }

  /**
   * No activation of a job is ever forgotten exactly if it is not of type ONCE: whatever its other
   * flags, a job of type ONCE can be activated while it runs, and that is forgotten when it is unlocked.
   */
  lemma ForgottenExactlyIfOnce(t: JobType)
    requires Legal(t)
    ensures t.once <==> exists b: seq<State>, k: nat, j: nat ::
              Behavior(b) && k < |b| && j < |b[k].types| && b[k].types[j] == t && Forgotten(b[k], j)
  {
    if t.once {
      var b;
      if t.parallel {
        b := ParallelIsForgotten(t);
      } else {
        b := SingleIsForgotten(t);
      }
      assert Forgotten(b[|b| - 1], 0);
    } else if b: seq<State>, k: nat, j: nat :|
        Behavior(b) && k < |b| && j < |b[k].types| && b[k].types[j] == t && Forgotten(b[k], j) {
      NoLostActivation(b, k, j);
    }
  }
}
