/** The jobs and run locks of one workq, each operation run to completion. */
module WorkqRun {
  import opened Queues
  import opened WorkqMachine

  /** What `wq_run_lock::lock` got: no job, or a job together with the lock it is run under. */
  datatype Grant = NoGrant | Granted(j: nat, lck: Lock)

  /** The place of the first job of a queue that can be locked; the length when there is none. */
  function FirstLockable(q: seq<nat>, jobs: seq<Job>): (i: nat)
    ensures i <= |q|
    ensures forall k :: 0 <= k < i ==> !Lockable(jobs, q[k])
    ensures i < |q| ==> Lockable(jobs, q[i])
  {
    if q == [] || Lockable(jobs, q[0]) then 0 else 1 + FirstLockable(q[1..], jobs)
  }

  /** Popping up to the first job that can be locked drops no other one that can. */
  lemma NothingLost(q: seq<nat>, jobs: seq<Job>)
    ensures var i := FirstLockable(q, jobs);
      && (i == |q| ==> forall x :: x in q ==> !Lockable(jobs, x))
      && (i < |q| ==> forall x :: x in q && Lockable(jobs, x) ==> x == q[i] || x in q[i + 1..])
      && (i < |q| ==> forall x :: x in q[i + 1..] ==> x in q)
  {
    var i := FirstLockable(q, jobs);
    if i < |q| {
      assert q == q[..i] + [q[i]] + q[i + 1..];
    }
  }

  /** A queue without lockable jobs, on which two are linked in turn: the first one is found first, then the other. */
  lemma FirstInFirstOut(q: seq<nat>, jobs: seq<Job>, i: nat, j: nat, job: Job)
    requires Lockable(jobs, i) && Lockable(jobs, j) && i != j && forall x :: x in q ==> !Lockable(jobs, x)
    ensures FirstLockable(q + [i] + [j], jobs) == |q| && (q + [i] + [j])[|q| + 1..] == [j]
    ensures FirstLockable([j], jobs[i := job]) == 0
  {
    FirstFound(q + [i] + [j], jobs, |q|);
  }

  /** The first job that can be locked is where no other one is before it. */
  lemma FirstFound(q: seq<nat>, jobs: seq<Job>, k: nat)
    requires k < |q| && Lockable(jobs, q[k]) && forall i :: 0 <= i < k ==> !Lockable(jobs, q[i])
    ensures FirstLockable(q, jobs) == k
  {}

  class Workq {
    const types: seq<JobType>
    var jobs: seq<Job>
    var single: bool
    var parallel: nat
    var runq: seq<nat>
    var prunq: seq<nat>

    /**
     * Between operations no activated job that may run again is forgotten, and only parallel jobs are on `m_p_runq`.
     */
    ghost predicate Valid()
      reads this
    {
      && |types| == |jobs| && Distinct(runq) && Distinct(prunq)
      && (forall x :: x in runq ==> x < |jobs|) && (forall x :: x in prunq ==> x < |jobs| && types[x].parallel)
      && (forall j: nat :: Lockable(jobs, j) && !types[j].once ==> j in runq)
    }

    constructor (types: seq<JobType>)
      ensures this.types == types && Valid() && !single && parallel == 0 && runq == [] && prunq == []
      ensures jobs == seq(|types|, i => Job(false, false))
    {
      this.types, jobs := types, seq(|types|, i => Job(false, false));
      single, parallel, runq, prunq := false, 0, [], [];
    }

    /** `job_to_runq`. */
    method JobToRunq(j: nat)
      requires |types| == |jobs| && j < |jobs|
      modifies this`runq, this`prunq
      ensures runq == old(runq) + if j in old(runq) then [] else [j]
      ensures prunq == old(prunq) + if !types[j].parallel || j in old(prunq) then [] else [j]
    {
      if types[j].parallel {
        prunq := LinkBack(prunq, j);
      }
      runq := LinkBack(runq, j);
    }

    /** `activate`, without an immediate run. */
    method Activate(j: nat)
      requires Valid() && j < |jobs|
      modifies this`jobs, this`runq, this`prunq
      ensures Valid() && jobs == old(jobs)[j := old(jobs[j]).(active := true)]
      ensures if old(jobs[j]).running || old(jobs[j]).active then runq == old(runq) && prunq == old(prunq)
              else
                && runq == old(runq) + (if j in old(runq) then [] else [j])
                && prunq == old(prunq) + if !types[j].parallel || j in old(prunq) then [] else [j]
    {
      var s := jobs[j];
      jobs := jobs[j := s.(active := true)];
      if !s.running && !s.active {
        JobToRunq(j);
      }
    }

    /** `workq_job::lock_run`: sets RUNNING, and clears ACTIVE unless the job is persistent. */
    method LockRun(j: nat) returns (ok: bool)
      requires |types| == |jobs| && j < |jobs|
      modifies this`jobs
      ensures ok == Lockable(old(jobs), j)
      ensures jobs == if ok then old(jobs)[j := Job(true, types[j].persist)] else old(jobs)
    {
      var s := jobs[j];
      if !s.active || s.running {
        return false;
      }
      jobs := jobs[j := Job(true, types[j].persist && s.active)];
      ok := true;
    }

    /** The loop of `lock` that pops a run queue until it finds a job it can lock. */
    method PopLockable(q: seq<nat>) returns (rest: seq<nat>, found: bool, j: nat)
      requires |types| == |jobs| && forall x :: x in q ==> x < |jobs|
      modifies this`jobs
      ensures var i := FirstLockable(q, old(jobs));
        && found == (i < |q|)
        && rest == (if found then q[i + 1..] else [])
        && (found ==> j == q[i] && jobs == old(jobs)[j := Job(true, types[j].persist)])
        && (!found ==> jobs == old(jobs))
      ensures (forall x :: x in rest ==> x in q) && (Distinct(q) ==> Distinct(rest))
      ensures forall x :: x in q && Lockable(old(jobs), x) ==> found && (x == j || x in rest)
    {
      NothingLost(q, jobs);
      rest, found, j := q, false, 0;
      ghost var i := 0;
      while rest != []
        invariant i <= |q| && rest == q[i..] && !found && jobs == old(jobs)
        invariant FirstLockable(q, jobs) == i + FirstLockable(rest, jobs)
        decreases |rest|
      {
        j := rest[0];
        assert j == q[i] && q[i] in q;
        rest := rest[1..];
        found := LockRun(j);
        if found {
          return;
        }
        i := i + 1;
      }
    }

    /**
     * `wq_run_lock::lock(workq&)`: with RUN_SINGLE free, the first job of `m_runq` that can be
     * locked, under RUN_SINGLE unless it is parallel; otherwise the first such job of `m_p_runq`.
     */
    method Lock() returns (g: Grant)
      requires Valid()
      modifies this`jobs, this`single, this`parallel, this`runq, this`prunq
      ensures Valid()
      ensures var q := if old(single) then old(prunq) else old(runq);
        var i := FirstLockable(q, old(jobs));
        if i == |q| then
          && g == NoGrant && jobs == old(jobs) && single == old(single) && parallel == old(parallel)
          && (if old(single) then prunq == [] && runq == old(runq) else runq == [] && prunq == old(prunq))
        else
          var j := q[i];
          && g == Granted(j, if types[j].parallel then Parallel else Single)
          && jobs == old(jobs)[j := Job(true, types[j].persist)]
          && single == (old(single) || !types[j].parallel)
          && parallel == old(parallel) + (if types[j].parallel then 1 else 0)
          && (if old(single) then prunq == old(prunq)[i + 1..] && runq == Without(old(runq), j)
              else
                && runq == old(runq)[i + 1..]
                && prunq == if types[j].parallel then Without(old(prunq), j) else old(prunq))
    {
      if !single {
        single := true;
        g := LockFirst();
      } else {
        parallel := parallel + 1;
        g := LockFirstParallel();
      }
    }

    /** `lock` under RUN_SINGLE, which is given up again for a parallel job, or for none. */
    method LockFirst() returns (g: Grant)
      requires Valid() && single
      modifies this`jobs, this`single, this`parallel, this`runq, this`prunq
      ensures Valid()
      ensures var q, i := old(runq), FirstLockable(old(runq), old(jobs));
        if i == |q| then
          && g == NoGrant && jobs == old(jobs) && !single && parallel == old(parallel) && runq == []
            && prunq == old(prunq)
        else
          var j := q[i];
          && g == Granted(j, if types[j].parallel then Parallel else Single)
          && jobs == old(jobs)[j := Job(true, types[j].persist)]
          && single == !types[j].parallel && parallel == old(parallel) + (if types[j].parallel then 1 else 0)
          && runq == q[i + 1..] && prunq == if types[j].parallel then Without(old(prunq), j) else old(prunq)
    {
      var found, j;
      runq, found, j := PopLockable(runq);
      if !found {
        single := false;
        return NoGrant;
      }
      if types[j].parallel {
        Downgrade(j);
        g := Granted(j, Parallel);
      } else {
        g := Granted(j, Single);
      }
    }

    /** Takes a parallel job off `m_p_runq` and gives RUN_SINGLE up for RUN_PARALLEL. */
    method Downgrade(j: nat)
      requires Valid() && single
      modifies this`single, this`parallel, this`prunq
      ensures Valid() && prunq == Without(old(prunq), j) && parallel == old(parallel) + 1 && !single
    {
      WithoutOthers(prunq, j);
      WithoutDistinct(prunq, j);
      prunq := Without(prunq, j);
      parallel := parallel + 1;
      single := false;
    }

    /** `lock` under RUN_PARALLEL, which is given up again when there is no job. */
    method LockFirstParallel() returns (g: Grant)
      requires Valid() && 0 < parallel
      modifies this`jobs, this`parallel, this`runq, this`prunq
      ensures Valid()
      ensures var q, i := old(prunq), FirstLockable(old(prunq), old(jobs));
        if i == |q| then
          g == NoGrant && jobs == old(jobs) && parallel == old(parallel) - 1 && prunq == [] && runq == old(runq)
        else
          var j := q[i];
          && g == Granted(j, Parallel) && types[j].parallel && jobs == old(jobs)[j := Job(true, types[j].persist)]
          && parallel == old(parallel) && prunq == q[i + 1..] && runq == Without(old(runq), j)
    {
      var found, j;
      prunq, found, j := PopLockable(prunq);
      if !found {
        parallel := parallel - 1;
        return NoGrant;
      }
      WithoutOthers(runq, j);
      WithoutDistinct(runq, j);
      runq := Without(runq, j);
      g := Granted(j, Parallel);
    }

    /** `wq_run_lock::unlock`: the job first, which goes back on the run queues when it was activated meanwhile. */
    method Unlock(g: Grant)
      requires Valid() && g.Granted? && g.j < |jobs| && jobs[g.j].running
      requires (g.lck.Single? && single) || (g.lck.Parallel? && 0 < parallel)
      modifies this`jobs, this`single, this`parallel, this`runq, this`prunq
      ensures Valid() && jobs == old(jobs)[g.j := old(jobs[g.j]).(running := false)]
      ensures single == (old(single) && !g.lck.Single?) && parallel == old(parallel) - if g.lck.Parallel? then 1 else 0
      ensures var again := !types[g.j].once && old(jobs[g.j]).active;
        && runq == old(runq) + (if !again || g.j in old(runq) then [] else [g.j])
        && prunq == old(prunq) + if !again || !types[g.j].parallel || g.j in old(prunq) then [] else [g.j]
    {
      var s := jobs[g.j];
      jobs := jobs[g.j := s.(running := false)];
      if !types[g.j].once && s.active {
        JobToRunq(g.j);
      }
      match g.lck
      case Single => single := false;
      case Parallel => parallel := parallel - 1;
    }
  }

  /**
   * A client: two jobs activated in turn, on a workq where no other job can be locked, run in that
   * order, even when the first one is persistent and goes back on the queue.
   */
  method RunInTurn(w: Workq, i: nat, j: nat) returns (g: Grant, h: Grant)
    requires w.Valid() && !w.single && i < |w.jobs| && j < |w.jobs| && i != j
    requires w.jobs[i] == w.jobs[j] == Job(false, false)
    requires i !in w.runq && j !in w.runq && i !in w.prunq && j !in w.prunq
    requires forall x :: x in w.runq ==> !Lockable(w.jobs, x)
    modifies w
    ensures w.Valid() && g.Granted? && g.j == i && h.Granted? && h.j == j
  {
    ghost var q := w.runq;
    w.Activate(i);
    w.Activate(j);
    assert w.runq == q + [i] + [j];
    g := LockFirstOfTwo(w, i, j, q);
    w.Unlock(g);
    assert w.runq[0] == j && Lockable(w.jobs, j);
    h := w.Lock();
  }

  method LockFirstOfTwo(w: Workq, i: nat, j: nat, ghost q: seq<nat>) returns (g: Grant)
    requires w.Valid() && !w.single && i != j && w.runq == q + [i] + [j]
    requires Lockable(w.jobs, i) && Lockable(w.jobs, j) && forall x :: x in q ==> !Lockable(w.jobs, x)
    modifies w
    ensures w.Valid() && g.Granted? && g.j == i && w.runq == [j] && |w.jobs| == |old(w.jobs)|
    ensures w.jobs[i].running && w.jobs[j] == old(w.jobs[j]) && w.single == g.lck.Single?
    ensures if g.lck.Single? then w.parallel == old(w.parallel)
            else g.lck.Parallel? && w.parallel == old(w.parallel) + 1
  {
    FirstInFirstOut(q, w.jobs, i, j, Job(true, w.types[i].persist));
    g := w.Lock();
  }
}
