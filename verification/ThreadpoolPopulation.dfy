/**
 * How many workers a threadpool has: any number of calls of `set_nthreads` and of workers asking
 * whether they must die, one step per atomic operation.
 */
module ThreadpoolPopulation {
  import opened SeqSum

  datatype Status = Busy | SleepTest | Sleep | Dying

  /** Where a worker is inside `must_die`; from `TryBusy` on it holds one unit taken off `n_oversize`. */
  datatype Verdict = Outside | Take | TryBusy | TrySleepTest | TrySleep | GiveBack

  datatype Worker = Worker(st: Status, verdict: Verdict)

  /** Where a thread is inside `set_nthreads`. */
  datatype Stage =
    | Ready      // no call in progress
    | Reduce     // cancel deaths that are still outstanding
    | Create     // create workers
    | Cull       // kill idle workers
    | Suicide    // kill the calling worker
    | Increase   // announce the deaths still to come

  /** A call changes the pool from the `have` workers it has accounted for to `n`. */
  datatype Call = Call(at: Stage, have: nat, n: nat)

  datatype State = State(nThreads: nat, nOversize: nat, workers: seq<Worker>, calls: seq<Call>)

  datatype Action =
    | Shift(w: nat, st: Status)    // a worker goes to sleep, or is woken
    | Ask(w: nat)                  // `must_die` loads the state
    | Decide(w: nat)               // the next operation of `must_die`
    | Resize(k: nat, n: nat)       // `set_nthreads(n)` exchanges `n_threads`
    | Advance(k: nat)              // the next operation of `set_nthreads`
    | Kill(k: nat, w: nat)         // pops the idle worker `w` and kills it
    | Skip(k: nat)                 // finds no idle worker, or is not a worker itself

  function Min(a: nat, b: nat): nat { if a < b then a else b }

  predicate Enabled(s: State, a: Action) {
    match a
    case Shift(w, st) => w < |s.workers| && !s.workers[w].st.Dying? && !st.Dying?
    case Ask(w) => w < |s.workers| && s.workers[w].verdict.Outside?
    case Decide(w) => w < |s.workers| && !s.workers[w].verdict.Outside?
    case Resize(k, n) => k < |s.calls| && s.calls[k].at.Ready?
    case Advance(k) =>
      k < |s.calls| && (s.calls[k].at.Reduce? || s.calls[k].at.Create? || s.calls[k].at.Increase?)
    case Kill(k, w) =>
      k < |s.calls| && w < |s.workers| && s.calls[k].n < s.calls[k].have
        && (s.calls[k].at.Cull? || s.calls[k].at.Suicide?)
    case Skip(k) => k < |s.calls| && (s.calls[k].at.Cull? || s.calls[k].at.Suicide?)
  }

  /** The operations of `must_die` behind its first load. */
  function AdvanceVerdict(s: State, w: nat): State
    requires Enabled(s, Decide(w))
  {
    var me := s.workers[w];
    match me.verdict
    case Take =>  // reduce_oversize(1)
      if 0 < s.nOversize then s.(nOversize := s.nOversize - 1, workers := s.workers[w := me.(verdict := TryBusy)])
      else s.(workers := s.workers[w := me.(verdict := Outside)])
    case TryBusy => s.(workers :=
      s.workers[w := if me.st.Busy? then Worker(Dying, Outside) else me.(verdict := TrySleepTest)])
    case TrySleepTest =>
      s.(workers := s.workers[w := if me.st.SleepTest? then Worker(Dying, Outside) else me.(verdict := TrySleep)])
    case TrySleep => s.(workers :=
      s.workers[w := if me.st.Sleep? then Worker(Dying, Outside) else me.(verdict := GiveBack)])
    case GiveBack =>  // increase_oversize(1)
      s.(nOversize := s.nOversize + 1, workers := s.workers[w := me.(verdict := Outside)])
    case Outside => s
  }

  /** The operations of `set_nthreads` that do not kill. */
  function AdvanceCall(s: State, k: nat): State
    requires Enabled(s, Advance(k))
  {
    var c := s.calls[k];
    match c.at
    case Reduce =>
      var r := if c.have < c.n then Min(s.nOversize, c.n - c.have) else 0;
      s.(nOversize := s.nOversize - r, calls := s.calls[k := Call(Create, c.have + r, c.n)])
    case Create =>
      if c.have < c.n then s.(workers := s.workers + [Worker(Busy, Outside)],
                                  calls := s.calls[k := c.(have := c.have + 1)])
      else s.(calls := s.calls[k := c.(at := Cull)])
    case Increase =>
      s.(nOversize := s.nOversize + if c.n < c.have then c.have - c.n else 0, calls := s.calls[k := Call(Ready, 0, 0)])
    case Ready => s
    case Cull => s
    case Suicide => s
  }

  function Apply(s: State, a: Action): State
    requires Enabled(s, a)
  {
    match a
    case Shift(w, st) => s.(workers := s.workers[w := s.workers[w].(st := st)])
    case Ask(w) => if s.workers[w].st.Dying? then s else s.(workers := s.workers[w := s.workers[w].(verdict := Take)])
    case Decide(w) => AdvanceVerdict(s, w)
    case Resize(k, n) => s.(nThreads := n, calls := s.calls[k := Call(Reduce, s.nThreads, n)])
    case Advance(k) => AdvanceCall(s, k)
    case Kill(k, w) =>
      var c := s.calls[k];
      var at := if c.at.Suicide? then Increase else Cull;
      if s.workers[w].st.Dying? then s.(calls := s.calls[k := c.(at := at)])
      else s.(workers := s.workers[w := s.workers[w].(st := Dying)], calls := s.calls[k := Call(at, c.have - 1, c.n)])
    case Skip(k) => s.(calls := s.calls[k := s.calls[k].(at := if s.calls[k].at.Suicide? then Increase else Suicide)])
  }

  /** A pool without workers; any number of threads, none of them in a call. */
  predicate Init(s: State) {
    && s.nThreads == 0 && s.nOversize == 0 && s.workers == []
    && forall k :: 0 <= k < |s.calls| ==> s.calls[k] == Call(Ready, 0, 0)
  }

  ghost predicate Next(s: State, s': State) {
    exists a :: Enabled(s, a) && s' == Apply(s, a)
  }

  ghost predicate StepAt(b: seq<State>, k: nat)
    requires k + 1 < |b|
  {
    Next(b[k], b[k + 1])
  }

  ghost predicate Behavior(b: seq<State>) {
    b != [] && Init(b[0]) && forall k :: 0 <= k < |b| - 1 ==> StepAt(b, k)
  }

  // ---------------------------------------------------------------- conservation

  function Living(): Worker -> int { (w: Worker) => if w.st.Dying? then 0 else 1 }

  function Holding(): Worker -> int {
    (w: Worker) => if w.verdict.Outside? || w.verdict.Take? then 0 else 1
  }

  function Unsettled(): Call -> int { (c: Call) => if c.at.Ready? then 0 else c.have - c.n }

  /** Workers alive, against the workers wanted, the deaths outstanding, and what is in flight. */
  function Surplus(s: State): int {
    Sum(s.workers, Living()) - s.nThreads - s.nOversize - Sum(s.calls, Unsettled()) - Sum(s.workers, Holding())
  }

  /** While a call creates workers it has none left to kill, and it only starts to kill with none left to create. */
  predicate CallOk(c: Call) {
    (c.at.Cull? || c.at.Suicide? || c.at.Increase?) ==> c.n <= c.have
  }

  ghost predicate Inv(s: State) {
    Surplus(s) == 0 && forall k :: 0 <= k < |s.calls| ==> CallOk(s.calls[k])
  }

  lemma WorkerSums(s: seq<Worker>, w: nat, x: Worker)
    requires w < |s|
    ensures Sum(s[w := x], Living()) == Sum(s, Living()) - Living()(s[w]) + Living()(x)
    ensures Sum(s[w := x], Holding()) == Sum(s, Holding()) - Holding()(s[w]) + Holding()(x)
  {
    SumUpdate(s, w, x, Living());
    SumUpdate(s, w, x, Holding());
  }

  /** What a worker takes off the counter it holds, what it holds it puts back or dies of. */
  lemma VerdictBalance(s: State, w: nat) returns (x: Worker)
    requires Enabled(s, Decide(w))
    ensures Apply(s, Decide(w)) == s.(workers := s.workers[w := x], nOversize := Apply(s, Decide(w)).nOversize)
    ensures Apply(s, Decide(w)).nOversize + Holding()(x) - Living()(x)
         == s.nOversize + Holding()(s.workers[w]) - Living()(s.workers[w])
  {
    x := Apply(s, Decide(w)).workers[w];
  }

  lemma VerdictKeepsInv(s: State, w: nat)
    requires Inv(s) && Enabled(s, Decide(w))
    ensures Inv(Apply(s, Decide(w)))
  {
    var x := VerdictBalance(s, w);
    WorkerSums(s.workers, w, x);
  }

  lemma CallKeepsInv(s: State, k: nat)
    requires Inv(s) && Enabled(s, Advance(k))
    ensures Inv(Apply(s, Advance(k)))
  {
    SumUpdate(s.calls, k, Apply(s, Advance(k)).calls[k], Unsettled());
    SumAppend(s.workers, Worker(Busy, Outside), Living());
    SumAppend(s.workers, Worker(Busy, Outside), Holding());
  }

  lemma KillKeepsInv(s: State, k: nat, w: nat)
    requires Inv(s) && Enabled(s, Kill(k, w))
    ensures Inv(Apply(s, Kill(k, w)))
  {
    var s' := Apply(s, Kill(k, w));
    SumUpdate(s.calls, k, s'.calls[k], Unsettled());
    WorkerSums(s.workers, w, s.workers[w].(st := Dying));
  }

  lemma StepKeepsInv(s: State, a: Action)
    requires Inv(s) && Enabled(s, a)
    ensures Inv(Apply(s, a))
  {
    match a
    case Shift(w, st) => WorkerSums(s.workers, w, s.workers[w].(st := st));
    case Ask(w) => WorkerSums(s.workers, w, s.workers[w].(verdict := Take));
    case Decide(w) => VerdictKeepsInv(s, w);
    case Resize(k, n) => SumUpdate(s.calls, k, Call(Reduce, s.nThreads, n), Unsettled());
    case Advance(k) => CallKeepsInv(s, k);
    case Kill(k, w) => KillKeepsInv(s, k, w);
    case Skip(k) => SumUpdate(s.calls, k, Apply(s, a).calls[k], Unsettled());
  }

  lemma {:induction false} InvAlways(b: seq<State>, k: nat)
    requires Behavior(b) && k < |b|
    ensures Inv(b[k])
  {
    if k == 0 {
      SumZero(b[0].calls, Unsettled());
    } else {
      InvAlways(b, k - 1);
      assert StepAt(b, k - 1);
      var a :| Enabled(b[k - 1], a) && b[k] == Apply(b[k - 1], a);
      StepKeepsInv(b[k - 1], a);
    }
  }

  /**
   * Population conservation: in every reachable state the workers that are not dying are the
   * workers wanted, plus the deaths outstanding in `n_oversize`, plus what the calls of
   * `set_nthreads` in progress still have to settle, plus the units that workers took in
   * `must_die` without having died or given them back yet.
   */
  lemma PopulationConservation(b: seq<State>, k: nat)
    requires Behavior(b) && k < |b|
    ensures Sum(b[k].workers, Living()) ==
            b[k].nThreads + b[k].nOversize + Sum(b[k].calls, Unsettled()) + Sum(b[k].workers, Holding())
  {
    InvAlways(b, k);
  }

  /** When all calls have returned and no worker is deciding, the pool has the wanted workers and those told to die. */
  lemma SettledPopulation(b: seq<State>, k: nat)
    requires Behavior(b) && k < |b|
    requires forall j :: 0 <= j < |b[k].calls| ==> b[k].calls[j].at.Ready?
    requires forall w :: 0 <= w < |b[k].workers| ==> b[k].workers[w].verdict.Outside?
    ensures Sum(b[k].workers, Living()) == b[k].nThreads + b[k].nOversize
  {
    InvAlways(b, k);
    SumZero(b[k].calls, Unsettled());
    SumZero(b[k].workers, Holding());
  }

  /** No death without a unit: a worker dies by a unit of oversize that it took, or by a kill that its call books. */
  lemma NoDeathWithoutUnit(b: seq<State>, k: nat, a: Action, w: nat)
    requires Behavior(b) && k < |b| && Enabled(b[k], a) && w < |b[k].workers|
    requires !b[k].workers[w].st.Dying? && Apply(b[k], a).workers[w].st.Dying?
    ensures Surplus(Apply(b[k], a)) == 0
    ensures (a == Decide(w) && Holding()(b[k].workers[w]) == 1)
         || (a.Kill? && a.w == w && Apply(b[k], a).calls[a.k].have + 1 == b[k].calls[a.k].have)
  {
    InvAlways(b, k);
    StepKeepsInv(b[k], a);
  }

  /** No unit without a death: one that `must_die` took is settled by the death of its worker, or given back. */
  lemma NoUnitWithoutDeath(b: seq<State>, k: nat, a: Action, w: nat)
    requires Behavior(b) && k < |b| && Enabled(b[k], a) && w < |b[k].workers|
    requires Holding()(b[k].workers[w]) == 1 && Holding()(Apply(b[k], a).workers[w]) == 0
    ensures Surplus(Apply(b[k], a)) == 0
    ensures var s, s' := b[k], Apply(b[k], a);
      || (a == Decide(w) && !s.workers[w].st.Dying? && s'.workers[w].st.Dying? && s'.nOversize == s.nOversize)
      || (a == Decide(w) && s'.workers[w].st == s.workers[w].st && s'.nOversize == s.nOversize + 1)
  {
    InvAlways(b, k);
    StepKeepsInv(b[k], a);
  }

  // ---------------------------------------------------------------- left alone

  /** The same action `n` times in a row: a worker in `must_die`, or a call that creates workers. */
  ghost predicate Repeats(s: State, a: Action, n: nat, s': State)
    decreases n
  {
    if n == 0 then s' == s else Enabled(s, a) && Repeats(Apply(s, a), a, n - 1, s')
  }

  ghost predicate Gets(s: State, a: Action, s': State) { exists n: nat :: Repeats(s, a, n, s') }

  lemma Then(s: State, a: Action, s1: State, s': State)
    requires Enabled(s, a) && Apply(s, a) == s1 && (s1 == s' || Gets(s1, a, s'))
    ensures Gets(s, a, s')
  {
    if s1 == s' {
      assert Repeats(s1, a, 0, s');
    }
    var n: nat :| Repeats(s1, a, n, s');
    assert Repeats(s, a, n + 1, s');
  }

  function WithWorker(s: State, w: nat, me: Worker): State
    requires w < |s.workers|
  {
    s.(workers := s.workers[w := me])
  }

  function WithCall(s: State, k: nat, c: Call): State
    requires k < |s.calls|
  {
    s.(calls := s.calls[k := c])
  }

  /** One of the exchanges that are still to come finds the worker in the state that it expects. */
  predicate WillDie(me: Worker) {
    match me.verdict
    case TryBusy => !me.st.Dying?
    case TrySleepTest => me.st.SleepTest? || me.st.Sleep?
    case TrySleep => me.st.Sleep?
    case _ => false
  }

  function Settled(s: State, w: nat): State
    requires w < |s.workers|
  {
    if WillDie(s.workers[w]) then WithWorker(s, w, Worker(Dying, Outside))
    else WithWorker(s, w, s.workers[w].(verdict := Outside)).(nOversize := s.nOversize + 1)
  }

  /** A worker that holds a unit dies, or, where it was woken or killed meanwhile, puts the unit back. */
  lemma SettlesUnit(s: State, w: nat)
    requires w < |s.workers| && Holding()(s.workers[w]) == 1
    ensures Gets(s, Decide(w), Settled(s, w))
    decreases match s.workers[w].verdict case TryBusy => 3 case TrySleepTest => 2 case TrySleep => 1 case _ => 0
  {
    var me, s1 := s.workers[w], Apply(s, Decide(w));
    if s1 != Settled(s, w) {
      var next := if me.verdict.TryBusy? then TrySleepTest else if me.verdict.TrySleepTest? then TrySleep else GiveBack;
      assert s1 == WithWorker(s, w, me.(verdict := next));
      SettlesUnit(s1, w);
      var x := Settled(s, w).workers[w];
      assert s1.workers[w := x] == s.workers[w := x];
      assert Settled(s1, w) == Settled(s, w);
    }
    Then(s, Decide(w), s1, Settled(s, w));
  }

  /** `must_die`: the worker dies exactly if a death is outstanding, and takes that off the counter. */
  lemma DiesIfTold(s: State, w: nat)
    requires w < |s.workers| && s.workers[w].verdict.Outside? && !s.workers[w].st.Dying?
    ensures Enabled(s, Ask(w))
    ensures Gets(Apply(s, Ask(w)), Decide(w),
                 if s.nOversize == 0 then s
                 else WithWorker(s, w, Worker(Dying, Outside)).(nOversize := s.nOversize - 1))
  {
    var s0, me := Apply(s, Ask(w)), s.workers[w];
    if s.nOversize == 0 {
      assert Apply(s0, Decide(w)) == s;
      Then(s0, Decide(w), s, s);
    } else {
      var s1 := WithWorker(s0, w, me.(verdict := TryBusy)).(nOversize := s.nOversize - 1);
      SettlesUnit(s1, w);
      assert s1.workers[w := Worker(Dying, Outside)] == s.workers[w := Worker(Dying, Outside)];
      Then(s0, Decide(w), s1, WithWorker(s, w, Worker(Dying, Outside)).(nOversize := s.nOversize - 1));
    }
  }

  /** A worker that is dying already is told so at once, and takes no unit; one that lives may sleep and be woken. */
  lemma DyingIsForGood(s: State, w: nat, st: Status)
    requires w < |s.workers|
    ensures Enabled(s, Shift(w, st)) <==> !s.workers[w].st.Dying? && !st.Dying?
    ensures Enabled(s, Shift(w, st)) ==> Apply(s, Shift(w, st)) == WithWorker(s, w, s.workers[w].(st := st))
    ensures s.workers[w] == Worker(Dying, Outside) ==> Enabled(s, Ask(w)) && Apply(s, Ask(w)) == s
  {}

  /** The workers that a call creates. */
  function Created(n: nat): (r: seq<Worker>)
    ensures |r| == n
  {
    seq(n, i => Worker(Busy, Outside))
  }

  lemma Creates(s: State, k: nat)
    requires k < |s.calls| && s.calls[k].at.Create?
    ensures var have, n := s.calls[k].have, s.calls[k].n;
      Gets(s, Advance(k), WithCall(s, k, Call(Cull, if have < n then n else have, n))
                            .(workers := s.workers + Created(if have < n then n - have else 0)))
    decreases s.calls[k].n - s.calls[k].have
  {
    var have, n := s.calls[k].have, s.calls[k].n;
    var end := WithCall(s, k, Call(Cull, if have < n then n else have, n))
                 .(workers := s.workers + Created(if have < n then n - have else 0));
    if have < n {
      var s1 := WithCall(s, k, Call(Create, have + 1, n)).(workers := s.workers + [Worker(Busy, Outside)]);
      Creates(s1, k);
      assert s1.workers + Created(n - have - 1) == s.workers + Created(n - have);
      assert s1.calls[k := Call(Cull, n, n)] == end.calls;
      Then(s, Advance(k), s1, end);
    } else {
      assert s.workers + Created(0) == s.workers;
      Then(s, Advance(k), end, end);
    }
  }

  /** `set_nthreads(n)` first cancels deaths that are outstanding, then creates the workers still missing. */
  lemma Resizes(s: State, k: nat, n: nat)
    requires k < |s.calls| && s.calls[k].at.Ready?
    ensures Enabled(s, Resize(k, n))
    ensures var have := s.nThreads;
      var cancelled := if have < n then Min(n - have, s.nOversize) else 0;
      Gets(Apply(s, Resize(k, n)), Advance(k),
           WithCall(s, k, Call(Cull, if have < n then n else have, n))
             .(nThreads := n, nOversize := s.nOversize - cancelled,
               workers := s.workers + Created(if have < n then n - have - cancelled else 0)))
  {
    var have, s0 := s.nThreads, Apply(s, Resize(k, n));
    var cancelled := if have < n then Min(n - have, s.nOversize) else 0;
    var s1 := WithCall(s, k, Call(Create, have + cancelled, n)).(nThreads := n, nOversize := s.nOversize - cancelled);
    assert Apply(s0, Advance(k)) == s1;
    Creates(s1, k);
    var end := WithCall(s, k, Call(Cull, if have < n then n else have, n))
                 .(nThreads := n, nOversize := s.nOversize - cancelled,
                   workers := s.workers + Created(if have < n then n - have - cancelled else 0));
    assert s1.calls[k := Call(Cull, if have < n then n else have, n)] == end.calls;
    Then(s0, Advance(k), s1, end);
  }

  /** With too many workers an idle one is killed, and then the caller; one that is dying already does not count. */
  lemma Culls(s: State, k: nat, w: nat)
    requires k < |s.calls| && w < |s.workers| && s.calls[k].n < s.calls[k].have
    requires s.calls[k].at.Cull? || s.calls[k].at.Suicide?
    ensures var c, me := s.calls[k], s.workers[w];
      && Enabled(s, Kill(k, w))
      && Apply(s, Kill(k, w)) ==
         WithCall(WithWorker(s, w, me.(st := Dying)), k,
                  Call(if c.at.Cull? then Cull else Increase, if me.st.Dying? then c.have else c.have - 1, c.n))
  {
    assert s.workers[w].st.Dying? ==> s.workers[w := s.workers[w].(st := Dying)] == s.workers;
  }

  /** With no idle worker left, and a caller that is no worker of the pool, the deaths still to come are announced. */
  lemma Announces(s: State, k: nat)
    requires k < |s.calls| && s.calls[k].at.Cull?
    ensures Enabled(s, Skip(k)) && Enabled(Apply(s, Skip(k)), Skip(k))
    ensures var c, s2 := s.calls[k], Apply(Apply(s, Skip(k)), Skip(k));
      && Enabled(s2, Advance(k))
      && Apply(s2, Advance(k)) ==
         WithCall(s, k, Call(Ready, 0, 0)).(nOversize := s.nOversize + if c.n < c.have then c.have - c.n else 0)
  {
    var s1 := WithCall(s, k, s.calls[k].(at := Suicide));
    assert Apply(s, Skip(k)) == s1;
    assert Apply(s1, Skip(k)) == WithCall(s, k, s.calls[k].(at := Increase));
  }

  // ---------------------------------------------------------------- one call, run to completion

  /** Worker `w` after the workers on the list `popped` were killed. */
  function Culled(workers: seq<Worker>, popped: seq<nat>, w: nat): Worker
    requires w < |workers|
  {
    if w in popped then workers[w].(st := Dying) else workers[w]
  }

  /** Those on the list `popped` that a kill makes dying. */
  function Alive(workers: seq<Worker>, popped: seq<nat>): set<nat> {
    set w: nat | w in popped && w < |workers| && !workers[w].st.Dying?
  }

  lemma AliveMore(workers: seq<Worker>, w: nat, popped: seq<nat>)
    requires w < |workers|
    ensures |Alive(workers, [w] + popped)|
         == |Alive(workers, popped)| + if workers[w].st.Dying? || w in popped then 0 else 1
  {
    var past, more := Alive(workers, popped), Alive(workers, [w] + popped);
    assert forall x :: x in [w] + popped <==> x == w || x in popped;
    if workers[w].st.Dying? || w in popped {
      assert more == past;
    } else {
      assert more == past + {w} && w !in past;
    }
  }

  /** The counters and lists of `threadpool::impl`, changed by one thread at a time. */
  class Pool {
    var nThreads: nat       // n_threads
    var nOversize: nat      // n_oversize
    var workers: seq<Worker>
    var idle: seq<nat>      // m_idle, the most recent sleeper in front

    ghost predicate Valid()
      reads this
    {
      && Sum(workers, Living()) == nThreads + nOversize
      && forall i :: 0 <= i < |idle| ==> idle[i] < |workers|
    }

    constructor ()
      ensures Valid() && nThreads == 0 && nOversize == 0 && workers == [] && idle == []
    {
      nThreads, nOversize, workers, idle := 0, 0, [], [];
    }

    /** `reduce_oversize`: takes as much off `n_oversize` as there is, at most `limit`. */
    method ReduceOversize(limit: nat) returns (r: nat)
      modifies this`nOversize
      ensures r == Min(limit, old(nOversize)) && nOversize == old(nOversize) - r
    {
      var oversize := limit;
      while oversize > 0
        invariant nOversize == old(nOversize) && (oversize == limit || oversize == nOversize)
        decreases oversize != nOversize
      {
        var reduce := Min(oversize, limit);
        if nOversize == oversize {
          nOversize := oversize - reduce;
          return reduce;
        }
        oversize := nOversize;
      }
      return 0;
    }

    /** `worker::kill`: true when this call is the one that made the worker dying. */
    method Kill(w: nat) returns (killed: bool)
      requires w < |workers|
      modifies this`workers
      ensures killed == !old(workers[w]).st.Dying? && workers == old(workers)[w := old(workers[w]).(st := Dying)]
      ensures Sum(workers, Living()) == Sum(old(workers), Living()) - if killed then 1 else 0
    {
      killed := !workers[w].st.Dying?;
      SumUpdate(workers, w, workers[w].(st := Dying), Living());
      workers := workers[w := workers[w].(st := Dying)];
    }

    /**
     * `set_nthreads`, called by the worker `self`, or by no worker when that is no index: deaths
     * that are still outstanding are cancelled before workers are created, idle workers are killed
     * from the back of the list, the caller kills itself, and only what is left is announced.
     */
    method SetNthreads(n: nat, self: nat)
      requires Valid()
      modifies this
      ensures Valid() && nThreads == n
      ensures old(nThreads) <= n ==>
                && nOversize == old(nOversize) - Min(n - old(nThreads), old(nOversize))
                && workers == old(workers)
                  + seq(n - old(nThreads) - Min(n - old(nThreads), old(nOversize)), i => Worker(Busy, Outside))
                && idle == old(idle)
      ensures n < old(nThreads) ==> |workers| == |old(workers)| && idle <= old(idle)
      ensures n < old(nThreads) ==>
                var popped := old(idle)[|idle|..];
                var left := old(nThreads) - n - |Alive(old(workers), popped)|;
                var suicide := 0 < left && self < |workers| && !Culled(old(workers), popped, self).st.Dying?;
                && 0 <= left && (0 < left ==> idle == [])
                && (popped != [] ==> |Alive(old(workers), popped[1..])| < old(nThreads) - n)
                && (forall w :: 0 <= w < |workers| ==>
                  workers[w] ==
                    if w == self && suicide then old(workers)[w].(st := Dying) else Culled(old(workers), popped, w))
                && nOversize == old(nOversize) + left - if suicide then 1 else 0
    {
      var have := nThreads;
      nThreads := n;
      if have < n {
        var r := ReduceOversize(n - have);
        have := have + r;
      }
      have := CreateUpTo(have, n);
      assert old(nThreads) >= n ==> workers == old(workers);
      ghost var popped := Shrink(have, n, self);
      assert old(idle)[|idle|..] == popped;
    }

    /** The second half: kills idle workers, then the caller, and announces what is left. */
    method Shrink(from: nat, n: nat, self: nat) returns (ghost popped: seq<nat>)
      requires n <= from && forall i :: 0 <= i < |idle| ==> idle[i] < |workers|
      modifies this`nOversize, this`workers, this`idle
      ensures old(idle) == idle + popped && |workers| == |old(workers)|
      ensures Sum(workers, Living()) - nOversize == Sum(old(workers), Living()) - old(nOversize) - (from - n)
      ensures n == from ==> popped == []
      ensures var left := from - n - |Alive(old(workers), popped)|;
        var suicide := 0 < left && self < |workers| && !Culled(old(workers), popped, self).st.Dying?;
        && 0 <= left && (0 < left ==> idle == []) && (popped != [] ==> |Alive(old(workers), popped[1..])| < from - n)
        && (forall w :: 0 <= w < |workers| ==>
          workers[w] == if w == self && suicide then old(workers)[w].(st := Dying) else Culled(old(workers), popped, w))
        && nOversize == old(nOversize) + left - if suicide then 1 else 0
    {
      var have;
      have, popped := CullDownTo(from, n);
      if n < have && self < |workers| {
        var killed := Kill(self);
        if killed {
          have := have - 1;
        }
      }
      if n < have {
        nOversize := nOversize + (have - n);
      }
    }

    method CreateUpTo(from: nat, n: nat) returns (have: nat)
      requires forall i :: 0 <= i < |idle| ==> idle[i] < |workers|
      modifies this`workers
      ensures have == (if from < n then n else from)
      ensures workers == old(workers) + seq(have - from, i => Worker(Busy, Outside))
      ensures Sum(workers, Living()) == Sum(old(workers), Living()) + have - from
    {
      have := from;
      assert workers == workers + seq(0, i => Worker(Busy, Outside));
      while have < n
        invariant from <= have && (have <= n || have == from)
        invariant workers == old(workers) + seq(have - from, i => Worker(Busy, Outside))
        invariant Sum(workers, Living()) == Sum(old(workers), Living()) + have - from
      {
        SumAppend(workers, Worker(Busy, Outside), Living());
        workers := workers + [Worker(Busy, Outside)];
        have := have + 1;
      }
    }

    method CullDownTo(from: nat, n: nat) returns (have: nat, ghost popped: seq<nat>)
      requires forall i :: 0 <= i < |idle| ==> idle[i] < |workers|
      modifies this`workers, this`idle
      ensures old(idle) == idle + popped && |workers| == |old(workers)|
      ensures Sum(workers, Living()) - have == Sum(old(workers), Living()) - from
      ensures have == from - |Alive(old(workers), popped)| && (n <= from ==> n <= have) && (n < have ==> idle == [])
      ensures popped != [] ==> n < from - |Alive(old(workers), popped[1..])|
      ensures forall w :: 0 <= w < |workers| ==> workers[w] == Culled(old(workers), popped, w)
    {
      have, popped := from, [];
      assert Alive(workers, []) == {};
      while n < have
        invariant old(idle) == idle + popped && |workers| == |old(workers)| && (n <= from ==> n <= have)
        invariant forall i :: 0 <= i < |idle| ==> idle[i] < |workers|
        invariant Sum(workers, Living()) - have == Sum(old(workers), Living()) - from
        invariant have == from - |Alive(old(workers), popped)|
        invariant popped != [] ==> n < from - |Alive(old(workers), popped[1..])|
        invariant forall w :: 0 <= w < |workers| ==> workers[w] == Culled(old(workers), popped, w)
        decreases |idle|
      {
        if idle == [] {
          break;
        }
        ghost var was := idle;
        have, popped := CullLast(have, old(workers), popped);
        assert was + popped[1..] == idle + popped && forall i :: 0 <= i < |idle| ==> idle[i] == was[i];
      }
    }

    /** A round of that loop: kills the worker that has been asleep longest. */
    method CullLast(was: nat, ghost before: seq<Worker>, ghost past: seq<nat>)
      returns (have: nat, ghost popped: seq<nat>)
      requires idle != [] && (forall i :: 0 <= i < |idle| ==> idle[i] < |workers|) && |before| == |workers| && 0 < was
      requires forall w :: 0 <= w < |workers| ==> workers[w] == Culled(before, past, w)
      modifies this`workers, this`idle
      ensures |popped| == |past| + 1 && popped[1..] == past && old(idle) == idle + popped[..1]
      ensures |workers| == |before| && |idle| == |old(idle)| - 1
      ensures Sum(workers, Living()) - have == Sum(old(workers), Living()) - was
      ensures was - have == |Alive(before, popped)| - |Alive(before, past)| && was - 1 <= have
      ensures forall w :: 0 <= w < |workers| ==> workers[w] == Culled(before, popped, w)
    {
      var i := idle[|idle| - 1];
      AliveMore(before, i, past);
      idle := idle[..|idle| - 1];
      have, popped := was, [i] + past;
      var killed := Kill(i);
      if killed {
        have := have - 1;
      }
    }
  }
}
