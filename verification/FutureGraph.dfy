/**
 * Lazy futures as a dataflow engine: nodes of `async_lazy` over promises that are completed from
 * outside, one step per atomic operation, interleaved in any order.
 */
module FutureGraph {
  import opened SeqSum

  datatype Result = Value(v: int) | Failed(e: int)

  /** An argument of a lazy function: a plain value, or the future of an earlier node. */
  datatype Arg = Const(v: int) | Fut(j: nat)

  datatype Node = Leaf | Lazy(args: seq<Arg>)

  /**
   * What is computed: the nodes, the function of each lazy node, and which of several failed
   * arguments a node meets first, C++ leaving the order of evaluation open.
   */
  datatype Program = Program(nodes: seq<Node>, fn: (nat, seq<int>) -> Result, pick: (nat, seq<Result>) -> nat)

  ghost predicate WellFormed(p: Program) {
    && (forall n: nat, a: nat :: n < |p.nodes| && p.nodes[n].Lazy? && a < |p.nodes[n].args| ==>
          (p.nodes[n].args[a].Fut? ==> p.nodes[n].args[a].j < n))
    && (forall n: nat, rs: seq<Result> :: (exists i :: 0 <= i < |rs| && rs[i].Failed?) ==>
          p.pick(n, rs) < |rs| && rs[p.pick(n, rs)].Failed?)
  }

  /** `state_` of a shared state. */
  datatype Status = Deferred | Uninitialized | Done(r: Result)

  /** What has become of the notification by one argument. */
  datatype Site = Fresh | Counted | Listed | Notified

  /** Where the threads are that construct and start the node; `k` is the argument they are at. */
  datatype Phase = Init(k: nat) | Idle | Starting(k: nat) | Started

  datatype Fire = No | Pending | Fired

  /** `need` is `need_resolution_`; `called` counts calls of the function. */
  datatype Cell = Cell(status: Status, phase: Phase, need: nat, sites: seq<Site>, fire: Fire, called: nat)

  datatype Action =
    | SetLeaf(n: nat, r: Result)   // a promise is completed
    | Begin(n: nat)                // somebody starts the node: clear_deferred succeeds
    | InitStep(n: nat)             // the next operation of init_cb
    | StartStep(n: nat)            // the next operation of do_start_deferred
    | Notify(n: nat, a: nat)       // dependant_cb, on behalf of a ready argument
    | Invoke(n: nat)               // invoke_deferred

  predicate Shaped(p: Program, s: seq<Cell>) {
    && |s| == |p.nodes|
    && forall n :: 0 <= n < |s| && p.nodes[n].Lazy? ==> |s[n].sites| == |p.nodes[n].args|
  }

  predicate Enabled(p: Program, s: seq<Cell>, a: Action)
    requires Shaped(p, s)
  {
    && a.n < |s|
    && match a
       case SetLeaf(n, r) => p.nodes[n].Leaf? && s[n].status.Uninitialized?
       case Begin(n) => p.nodes[n].Lazy? && s[n].status.Deferred? && s[n].phase.Idle?
       case InitStep(n) =>
         && p.nodes[n].Lazy? && s[n].phase.Init? && s[n].phase.k <= |p.nodes[n].args|
         && (s[n].phase.k < |p.nodes[n].args| && p.nodes[n].args[s[n].phase.k].Fut? ==>
               p.nodes[n].args[s[n].phase.k].j < |s| && !s[p.nodes[n].args[s[n].phase.k].j].phase.Init?)
       case StartStep(n) =>
         && p.nodes[n].Lazy? && s[n].phase.Starting? && s[n].phase.k <= |p.nodes[n].args|
         && (s[n].phase.k == |p.nodes[n].args| ==> 0 < s[n].need)
         && (s[n].phase.k < |p.nodes[n].args| && p.nodes[n].args[s[n].phase.k].Fut? ==>
           p.nodes[n].args[s[n].phase.k].j < |s|)
       case Notify(n, i) =>
         && p.nodes[n].Lazy? && i < |s[n].sites| && s[n].sites[i].Listed? && 0 < s[n].need
         && p.nodes[n].args[i].Fut? && p.nodes[n].args[i].j < |s| && s[p.nodes[n].args[i].j].status.Done?
       case Invoke(n) => p.nodes[n].Lazy? && s[n].fire.Pending? && ArgsDone(p, s, n)
  }

  predicate ArgsDone(p: Program, s: seq<Cell>, n: nat)
    requires n < |p.nodes| && p.nodes[n].Lazy?
  {
    forall i :: 0 <= i < |p.nodes[n].args| && p.nodes[n].args[i].Fut? ==>
      p.nodes[n].args[i].j < |s| && s[p.nodes[n].args[i].j].status.Done?
  }

  /** The results of the arguments. */
  function Resolved(p: Program, s: seq<Cell>, n: nat): seq<Result>
    requires n < |p.nodes| && p.nodes[n].Lazy? && ArgsDone(p, s, n)
  {
    seq(|p.nodes[n].args|, i requires 0 <= i < |p.nodes[n].args| =>
      match p.nodes[n].args[i] case Const(v) => Value(v) case Fut(j) => s[j].status.r)
  }

  predicate AllValues(rs: seq<Result>) {
    forall i :: 0 <= i < |rs| ==> rs[i].Value?
  }

  function Values(rs: seq<Result>): seq<int>
    requires AllValues(rs)
  {
    seq(|rs|, i requires 0 <= i < |rs| => rs[i].v)
  }

  /** The result of a node from those of its arguments: a failed argument fails it without a call. */
  function Combine(p: Program, n: nat, rs: seq<Result>): Result {
    if AllValues(rs) then p.fn(n, Values(rs))
    else if p.pick(n, rs) < |rs| then rs[p.pick(n, rs)] else Failed(0)
  }

  /** One notification less; the last one to arrive invokes the function. */
  function Resolve(c: Cell): Cell
    requires 0 < c.need
  {
    c.(need := c.need - 1, fire := if c.need == 1 then Pending else c.fire)
  }

  function Apply(p: Program, s: seq<Cell>, a: Action): seq<Cell>
    requires Shaped(p, s) && Enabled(p, s, a)
  {
    match a
    case SetLeaf(n, r) => s[n := s[n].(status := Done(r))]
    case Begin(n) => s[n := s[n].(status := Uninitialized, phase := Starting(0))]
    case InitStep(n) =>
      var c, k, args := s[n], s[n].phase.k, p.nodes[n].args;
      if k == |args| then s[n := c.(phase := Idle)]
      else if args[k].Const? then s[n := c.(phase := Init(k + 1))]
      else if c.sites[k].Fresh? then s[n := c.(need := c.need + 1, sites := c.sites[k := Counted])]
      else s[n := c.(phase := Init(k + 1), sites := c.sites[k := Listed])]
    case StartStep(n) =>
      var c, k, args := s[n], s[n].phase.k, p.nodes[n].args;
      if k == |args| then s[n := Resolve(c).(phase := Started)]
      else
        var s1 := s[n := c.(phase := Starting(k + 1))];
        if args[k].Fut? && Enabled(p, s1, Begin(args[k].j)) then
          s1[args[k].j := s1[args[k].j].(status := Uninitialized, phase := Starting(0))]
        else s1
    case Notify(n, i) => s[n := Resolve(s[n]).(sites := s[n].sites[i := Notified])]
    case Invoke(n) =>
      var rs := Resolved(p, s, n);
      s[n := s[n].(status := Done(Combine(p, n, rs)), fire := Fired,
                  called := s[n].called + if AllValues(rs) then 1 else 0)]
  }

  /** Promises not completed, lazy nodes not constructed. */
  predicate Start(p: Program, s: seq<Cell>) {
    && Shaped(p, s)
    && forall n :: 0 <= n < |s| ==>
         s[n] == if p.nodes[n].Leaf? then Cell(Uninitialized, Idle, 0, [], No, 0)
                 else Cell(Deferred, Init(0), 1, seq(|p.nodes[n].args|, i => Fresh), No, 0)
  }

  ghost predicate StepAt(p: Program, b: seq<seq<Cell>>, k: nat)
    requires k + 1 < |b|
  {
    Shaped(p, b[k]) && exists a :: Enabled(p, b[k], a) && b[k + 1] == Apply(p, b[k], a)
  }

  ghost predicate Behavior(p: Program, b: seq<seq<Cell>>) {
    b != [] && Start(p, b[0]) && forall k :: 0 <= k < |b| - 1 ==> StepAt(p, b, k)
  }

  // ---------------------------------------------------------------- invariant

  function Outstanding(): Site -> int { (x: Site) => if x.Counted? || x.Listed? then 1 else 0 }

  /** The unit that stands for "not yet started". */
  function Unit(c: Cell): int { if c.phase.Started? then 0 else 1 }

  /** How far the notification by argument `i` has come, given where the construction of the node is. */
  predicate SiteOk(p: Program, s: seq<Cell>, n: nat, i: nat)
    requires Shaped(p, s) && n < |s| && p.nodes[n].Lazy? && i < |s[n].sites|
  {
    var c := s[n];
    if p.nodes[n].args[i].Const? then c.sites[i].Fresh?
    else
      && p.nodes[n].args[i].j < |s|
      && (c.phase.Init? && i > c.phase.k ==> c.sites[i].Fresh?)
      && (c.phase.Init? && i == c.phase.k ==> c.sites[i].Fresh? || c.sites[i].Counted?)
      && (!c.phase.Init? || i < c.phase.k ==> c.sites[i].Listed? || c.sites[i].Notified?)
      && (c.sites[i].Listed? || c.sites[i].Notified? ==> !s[p.nodes[n].args[i].j].phase.Init?)
      && (c.sites[i].Notified? ==> s[p.nodes[n].args[i].j].status.Done?)
      && (c.phase.Started? || (c.phase.Starting? && i < c.phase.k) ==> !s[p.nodes[n].args[i].j].status.Deferred?)
  }

  predicate LazyOk(p: Program, s: seq<Cell>, n: nat)
    requires Shaped(p, s) && n < |s| && p.nodes[n].Lazy?
  {
    var c := s[n];
    && c.need == Unit(c) + Sum(c.sites, Outstanding())
    && (c.phase.Init? || c.phase.Starting? ==> c.phase.k <= |c.sites|)
    && (c.status.Deferred? <==> c.phase.Init? || c.phase.Idle?)
    && (c.fire.No? <==> 0 < c.need)
    && (c.status.Done? <==> c.fire.Fired?)
    && c.called <= (if c.fire.Fired? then 1 else 0)
    && (c.fire.Fired? ==> ArgsDone(p, s, n) && var rs := Resolved(p, s, n);
          c.status.r == Combine(p, n, rs) && c.called == if AllValues(rs) then 1 else 0)
  }

  predicate LeafOk(c: Cell) {
    c.phase.Idle? && !c.status.Deferred? && c.called == 0
  }

  ghost predicate Inv(p: Program, s: seq<Cell>) {
    && WellFormed(p) && Shaped(p, s)
    && (forall n: nat :: n < |s| && p.nodes[n].Leaf? ==> LeafOk(s[n]))
    && (forall n: nat :: n < |s| && p.nodes[n].Lazy? ==> LazyOk(p, s, n))
    && (forall n: nat, i: nat :: n < |s| && p.nodes[n].Lazy? && i < |s[n].sites| ==> SiteOk(p, s, n, i))
  }

  // ---------------------------------------------------------------- preservation

  /** No node goes back: neither from constructed, nor from started, nor from its result. */
  predicate Grows(s: seq<Cell>, s': seq<Cell>) {
    && |s| == |s'|
    && forall j :: 0 <= j < |s| ==>
         && (s[j].status.Done? ==> s'[j].status == s[j].status)
         && (!s[j].status.Deferred? ==> !s'[j].status.Deferred?)
         && (!s[j].phase.Init? ==> !s'[j].phase.Init?)
  }

  /** A node that a step does not touch stays as good as it was. */
  lemma UntouchedNode(p: Program, s: seq<Cell>, s': seq<Cell>, m: nat)
    requires Inv(p, s) && Shaped(p, s') && Grows(s, s') && m < |s| && s'[m] == s[m] && p.nodes[m].Lazy?
    ensures LazyOk(p, s', m)
    ensures forall i: nat :: i < |s'[m].sites| ==> SiteOk(p, s', m, i)
  {
    assert LazyOk(p, s, m);
    if s[m].fire.Fired? {
      assert Resolved(p, s', m) == Resolved(p, s, m);
    }
    forall i: nat | i < |s'[m].sites|
      ensures SiteOk(p, s', m, i)
    {
      assert SiteOk(p, s, m, i);
    }
  }

  lemma StepGrows(p: Program, s: seq<Cell>, a: Action)
    requires Inv(p, s) && Enabled(p, s, a)
    ensures Shaped(p, Apply(p, s, a)) && Grows(s, Apply(p, s, a))
  {
    if !a.SetLeaf? {
      assert LazyOk(p, s, a.n);
    }
  }

  /** A step that only touches node `n` keeps the invariant if it does so there. */
  lemma OneNode(p: Program, s: seq<Cell>, s': seq<Cell>, n: nat)
    requires Inv(p, s) && Shaped(p, s') && Grows(s, s') && n < |s| && s' == s[n := s'[n]]
    requires p.nodes[n].Leaf? ==> LeafOk(s'[n])
    requires p.nodes[n].Lazy? ==> LazyOk(p, s', n) && forall i: nat :: i < |s'[n].sites| ==> SiteOk(p, s', n, i)
    ensures Inv(p, s')
  {
    forall m: nat | m < |s'| && p.nodes[m].Lazy?
      ensures LazyOk(p, s', m) && forall i: nat :: i < |s'[m].sites| ==> SiteOk(p, s', m, i)
    {
      if m != n {
        UntouchedNode(p, s, s', m);
      }
    }
  }

  lemma SetLeafKeepsInv(p: Program, s: seq<Cell>, n: nat, r: Result)
    requires Inv(p, s) && Enabled(p, s, SetLeaf(n, r))
    ensures Inv(p, Apply(p, s, SetLeaf(n, r)))
  {
    StepGrows(p, s, SetLeaf(n, r));
    OneNode(p, s, Apply(p, s, SetLeaf(n, r)), n);
  }

  /** As long as a node is not started, or has a notification outstanding, it does not fire. */
  lemma NotYet(p: Program, s: seq<Cell>, n: nat)
    requires Inv(p, s) && n < |s| && p.nodes[n].Lazy?
    ensures !s[n].phase.Started? ==> s[n].fire.No? && 0 < s[n].need
    ensures 0 <= Sum(s[n].sites, Outstanding())
  {
    assert LazyOk(p, s, n);
    SumNonNegative(s[n].sites, Outstanding());
  }

  lemma SitesStay(p: Program, s: seq<Cell>, s': seq<Cell>, n: nat)
    requires Inv(p, s) && Shaped(p, s') && Grows(s, s') && n < |s| && p.nodes[n].Lazy? && s'[n].sites == s[n].sites
    requires s'[n].phase == s[n].phase || (s[n].phase.Idle? && s'[n].phase == Starting(0))
    ensures forall i: nat :: i < |s'[n].sites| ==> SiteOk(p, s', n, i)
  {
    forall i: nat | i < |s'[n].sites|
      ensures SiteOk(p, s', n, i)
    {
      assert SiteOk(p, s, n, i);
    }
  }

  lemma BeginKeepsInv(p: Program, s: seq<Cell>, n: nat)
    requires Inv(p, s) && Enabled(p, s, Begin(n))
    ensures Inv(p, Apply(p, s, Begin(n)))
  {
    var s' := Apply(p, s, Begin(n));
    StepGrows(p, s, Begin(n));
    assert LazyOk(p, s, n);
    SitesStay(p, s, s', n);
    OneNode(p, s, s', n);
  }

  lemma InitStepKeepsInv(p: Program, s: seq<Cell>, n: nat)
    requires Inv(p, s) && Enabled(p, s, InitStep(n))
    ensures Inv(p, Apply(p, s, InitStep(n)))
  {
    var s', c := Apply(p, s, InitStep(n)), s[n];
    StepGrows(p, s, InitStep(n));
    NotYet(p, s, n);
    assert LazyOk(p, s, n);
    if c.phase.k < |c.sites| {
      assert SiteOk(p, s, n, c.phase.k);
      SumUpdate(c.sites, c.phase.k, s'[n].sites[c.phase.k], Outstanding());
    }
    forall i: nat | i < |s'[n].sites|
      ensures SiteOk(p, s', n, i)
    {
      assert SiteOk(p, s, n, i);
    }
    OneNode(p, s, s', n);
  }

  lemma NotifyKeepsInv(p: Program, s: seq<Cell>, n: nat, i: nat)
    requires Inv(p, s) && Enabled(p, s, Notify(n, i))
    ensures Inv(p, Apply(p, s, Notify(n, i)))
  {
    var s', c := Apply(p, s, Notify(n, i)), s[n];
    StepGrows(p, s, Notify(n, i));
    assert LazyOk(p, s, n);
    SumUpdate(c.sites, i, Notified, Outstanding());
    forall k: nat | k < |s'[n].sites|
      ensures SiteOk(p, s', n, k)
    {
      assert SiteOk(p, s, n, k);
    }
    OneNode(p, s, s', n);
  }

  lemma InvokeKeepsInv(p: Program, s: seq<Cell>, n: nat)
    requires Inv(p, s) && Enabled(p, s, Invoke(n))
    ensures Inv(p, Apply(p, s, Invoke(n)))
  {
    var s' := Apply(p, s, Invoke(n));
    StepGrows(p, s, Invoke(n));
    NotYet(p, s, n);
    assert LazyOk(p, s, n);
    SitesStay(p, s, s', n);
    assert forall i :: 0 <= i < |p.nodes[n].args| && p.nodes[n].args[i].Fut? ==> p.nodes[n].args[i].j < n;
    assert Resolved(p, s', n) == Resolved(p, s, n);
    OneNode(p, s, s', n);
  }

  /** The last operation of `do_start_deferred`: the unit for "not yet started" goes. */
  lemma StartedKeepsInv(p: Program, s: seq<Cell>, n: nat)
    requires Inv(p, s) && Enabled(p, s, StartStep(n)) && s[n].phase.k == |p.nodes[n].args|
    ensures Inv(p, Apply(p, s, StartStep(n)))
  {
    var s' := Apply(p, s, StartStep(n));
    StepGrows(p, s, StartStep(n));
    assert LazyOk(p, s, n);
    forall i: nat | i < |s'[n].sites|
      ensures SiteOk(p, s', n, i)
    {
      assert SiteOk(p, s, n, i);
    }
    OneNode(p, s, s', n);
  }

  /** Starting the argument `k`: no more than going on, and then what starting it by itself does. */
  lemma StartArgKeepsInv(p: Program, s: seq<Cell>, n: nat)
    requires Inv(p, s) && Enabled(p, s, StartStep(n)) && s[n].phase.k < |p.nodes[n].args|
    ensures Inv(p, Apply(p, s, StartStep(n)))
  {
    var s', k, args := Apply(p, s, StartStep(n)), s[n].phase.k, p.nodes[n].args;
    StepGrows(p, s, StartStep(n));
    NotYet(p, s, n);
    assert LazyOk(p, s, n) && SiteOk(p, s, n, k);
    if args[k].Fut? {
      assert args[k].j < n;
      if p.nodes[args[k].j].Lazy? {
        NotYet(p, s, args[k].j);
        assert LazyOk(p, s, args[k].j);
        assert s[args[k].j].status.Deferred? ==> s[args[k].j].phase.Idle?;
      } else {
        assert LeafOk(s[args[k].j]);
      }
    }
    forall i: nat | i < |s'[n].sites|
      ensures SiteOk(p, s', n, i)
    {
      assert SiteOk(p, s, n, i);
    }
    forall m: nat | m < |s'| && p.nodes[m].Lazy?
      ensures LazyOk(p, s', m) && forall i: nat :: i < |s'[m].sites| ==> SiteOk(p, s', m, i)
    {
      if s'[m] == s[m] {
        UntouchedNode(p, s, s', m);
      } else if m != n {
        assert LazyOk(p, s, m);
        SitesStay(p, s, s', m);
      }
    }
  }

  lemma StepKeepsInv(p: Program, s: seq<Cell>, a: Action)
    requires Inv(p, s) && Enabled(p, s, a)
    ensures Inv(p, Apply(p, s, a))
  {
    match a
    case SetLeaf(n, r) => SetLeafKeepsInv(p, s, n, r);
    case Begin(n) => BeginKeepsInv(p, s, n);
    case InitStep(n) => InitStepKeepsInv(p, s, n);
    case StartStep(n) =>
      if s[n].phase.k == |p.nodes[n].args| {
        StartedKeepsInv(p, s, n);
      } else {
        StartArgKeepsInv(p, s, n);
      }
    case Notify(n, i) => NotifyKeepsInv(p, s, n, i);
    case Invoke(n) => InvokeKeepsInv(p, s, n);
  }

  lemma {:induction false} InvAlways(p: Program, b: seq<seq<Cell>>, k: nat)
    requires WellFormed(p) && Behavior(p, b) && k < |b|
    ensures Inv(p, b[k])
  {
    if k == 0 {
      forall n: nat | n < |b[0]| && p.nodes[n].Lazy?
        ensures LazyOk(p, b[0], n) && forall i: nat :: i < |b[0][n].sites| ==> SiteOk(p, b[0], n, i)
      {
        SumZero(b[0][n].sites, Outstanding());
      }
    } else {
      InvAlways(p, b, k - 1);
      assert StepAt(p, b, k - 1);
      var a :| Enabled(p, b[k - 1], a) && b[k] == Apply(p, b[k - 1], a);
      StepKeepsInv(p, b[k - 1], a);
    }
  }

  // ---------------------------------------------------------------- the counter and the calls

  /** `need_resolution_` is the unit for "not yet started" and the notifications still to come. */
  lemma CounterLaw(p: Program, b: seq<seq<Cell>>, k: nat, n: nat)
    requires WellFormed(p) && Behavior(p, b) && k < |b| && n < |b[k]| && n < |p.nodes| && p.nodes[n].Lazy?
    ensures b[k][n].need == Unit(b[k][n]) + Sum(b[k][n].sites, Outstanding())
  {
    InvAlways(p, b, k);
    assert LazyOk(p, b[k], n);
  }

  lemma CounterIsPositive(p: Program, s: seq<Cell>, n: nat, i: nat)
    requires Inv(p, s) && n < |s| && p.nodes[n].Lazy?
    ensures s[n].phase.Starting? ==> 0 < s[n].need
    ensures i < |s[n].sites| && s[n].sites[i].Listed? ==> 0 < s[n].need
  {
    NotYet(p, s, n);
    assert LazyOk(p, s, n);
    if i < |s[n].sites| {
      SumDominates(s[n].sites, i, Outstanding());
    }
  }

  lemma ZeroMeansReady(p: Program, s: seq<Cell>, n: nat)
    requires Inv(p, s) && n < |s| && p.nodes[n].Lazy? && s[n].need == 0
    ensures s[n].phase.Started? && ArgsDone(p, s, n)
  {
    NotYet(p, s, n);
    assert LazyOk(p, s, n);
    forall i: nat | i < |p.nodes[n].args| && p.nodes[n].args[i].Fut?
      ensures p.nodes[n].args[i].j < |s| && s[p.nodes[n].args[i].j].status.Done?
    {
      assert SiteOk(p, s, n, i);
      SumDominates(s[n].sites, i, Outstanding());
    }
  }

  /** The counter is positive whenever it is about to be decremented. */
  lemma CounterNeverUnderflows(p: Program, b: seq<seq<Cell>>, k: nat, n: nat, i: nat)
    requires WellFormed(p) && Behavior(p, b) && k < |b| && n < |b[k]| && n < |p.nodes| && p.nodes[n].Lazy?
    ensures b[k][n].phase.Starting? ==> 0 < b[k][n].need
    ensures i < |b[k][n].sites| && b[k][n].sites[i].Listed? ==> 0 < b[k][n].need
  {
    InvAlways(p, b, k);
    CounterIsPositive(p, b[k], n, i);
  }

  /** When the counter has reached zero, the node is started and every argument is ready. */
  lemma FiresWhenReady(p: Program, b: seq<seq<Cell>>, k: nat, n: nat)
    requires WellFormed(p) && Behavior(p, b) && k < |b| && n < |b[k]| && n < |p.nodes| && p.nodes[n].Lazy?
    requires b[k][n].need == 0
    ensures b[k][n].phase.Started? && ArgsDone(p, b[k], n)
  {
    InvAlways(p, b, k);
    ZeroMeansReady(p, b[k], n);
  }

  /** Argument `i` of node `n` is there and has the value `v`: its constant, or what its future is completed with. */
  predicate ArgIs(p: Program, s: seq<Cell>, n: nat, i: nat, v: int)
    requires n < |p.nodes| && p.nodes[n].Lazy? && i < |p.nodes[n].args|
  {
    match p.nodes[n].args[i]
    case Const(c) => v == c
    case Fut(j) => j < |s| && s[j].status == Done(Value(v))
  }

  /** Argument `i` of node `n` failed with `e`. */
  predicate ArgFailed(p: Program, s: seq<Cell>, n: nat, i: nat, e: int)
    requires n < |p.nodes| && p.nodes[n].Lazy? && i < |p.nodes[n].args|
  {
    p.nodes[n].args[i].Fut? && p.nodes[n].args[i].j < |s| && s[p.nodes[n].args[i].j].status == Done(Failed(e))
  }

  /**
   * The function of a node is called at most once, only after the node was started and all its
   * arguments are there, with their values in their order, and its result is that of the node. It is
   * not called at all when an argument failed, which fails the node the same way.
   */
  lemma CalledOnceWhenReady(p: Program, b: seq<seq<Cell>>, k: nat, n: nat)
    requires WellFormed(p) && Behavior(p, b) && k < |b| && n < |b[k]| && n < |p.nodes| && p.nodes[n].Lazy?
    ensures b[k][n].called <= 1
    ensures b[k][n].called == 1 ==> b[k][n].phase.Started?
    ensures b[k][n].called == 1 ==>
      exists vs: seq<int> ::
        && |vs| == |p.nodes[n].args| && (forall i: nat :: i < |vs| ==> ArgIs(p, b[k], n, i, vs[i]))
        && b[k][n].status == Done(p.fn(n, vs))
    ensures b[k][n].status.Done? && b[k][n].called == 0 ==>
      exists i: nat, e: int ::
        i < |p.nodes[n].args| && ArgFailed(p, b[k], n, i, e) && b[k][n].status == Done(Failed(e))
  {
    var s := b[k];
    InvAlways(p, b, k);
    assert LazyOk(p, s, n);
    NotYet(p, s, n);
    if s[n].called == 1 {
      var vs := Values(Resolved(p, s, n));
      forall i: nat | i < |vs|
        ensures ArgIs(p, s, n, i, vs[i])
      {
        assert Resolved(p, s, n)[i].Value?;
      }
    }
    if s[n].status.Done? && s[n].called == 0 {
      FailedByArgument(p, s, n);
    }
  }

  lemma FailedByArgument(p: Program, s: seq<Cell>, n: nat)
    requires Inv(p, s) && n < |s| && p.nodes[n].Lazy? && s[n].status.Done? && s[n].called == 0
    ensures exists i: nat, e: int ::
      i < |p.nodes[n].args| && ArgFailed(p, s, n, i, e) && s[n].status == Done(Failed(e))
  {
    assert LazyOk(p, s, n);
    var rs := Resolved(p, s, n);
    var q :| 0 <= q < |rs| && rs[q].Failed?;
    assert p.pick(n, rs) < |rs| && rs[p.pick(n, rs)].Failed?;
    var i := p.pick(n, rs);
    assert ArgFailed(p, s, n, i, rs[i].e);
  }

  lemma {:induction false} ResultsStay(p: Program, b: seq<seq<Cell>>, i: nat, k: nat, n: nat)
    requires WellFormed(p) && Behavior(p, b) && i <= k < |b| && n < |b[i]| && b[i][n].status.Done?
    ensures |b[k]| == |b[i]| && b[k][n].status == b[i][n].status
    decreases k - i
  {
    if i < k {
      ResultsStay(p, b, i, k - 1, n);
      InvAlways(p, b, k - 1);
      assert StepAt(p, b, k - 1);
      var a :| Enabled(p, b[k - 1], a) && b[k] == Apply(p, b[k - 1], a);
      StepGrows(p, b[k - 1], a);
    }
  }

  /** A promise that was completed with `r` at step `i` holds that from then on. */
  lemma CompletedWithIts(p: Program, b: seq<seq<Cell>>, i: nat, k: nat, n: nat, r: Result)
    requires WellFormed(p) && Behavior(p, b) && i < k < |b| && Shaped(p, b[i]) && Enabled(p, b[i], SetLeaf(n, r))
    requires b[i + 1] == Apply(p, b[i], SetLeaf(n, r))
    ensures n < |b[k]| && b[k][n].status == Done(r)
  {
    ResultsStay(p, b, i + 1, k, n);
  }

  // ---------------------------------------------------------------- agreement with evaluation

  /** Direct recursive evaluation of a node, given the results of the leaves. */
  ghost function Eval(p: Program, leaf: nat -> Result, n: nat): Result
    requires n < |p.nodes|
    decreases n, 1
  {
    if p.nodes[n].Leaf? then leaf(n) else Combine(p, n, EvalArgs(p, leaf, n))
  }

  ghost function EvalArgs(p: Program, leaf: nat -> Result, n: nat): (rs: seq<Result>)
    requires n < |p.nodes| && p.nodes[n].Lazy?
    ensures |rs| == |p.nodes[n].args|
    decreases n, 0
  {
    seq(|p.nodes[n].args|, i requires 0 <= i < |p.nodes[n].args| =>
      match p.nodes[n].args[i]
      case Const(v) => Value(v)
      case Fut(j) => if j < n then Eval(p, leaf, j) else Failed(0))
  }

  /** A node is evaluated by calling its function with the values of its arguments, in their order. */
  lemma EvalIsCall(p: Program, leaf: nat -> Result, n: nat, vs: seq<int>)
    requires WellFormed(p) && n < |p.nodes| && p.nodes[n].Lazy? && |vs| == |p.nodes[n].args|
    requires forall i: nat :: i < |vs| ==>
      match p.nodes[n].args[i]
      case Const(c) => vs[i] == c
      case Fut(j) => j < |p.nodes| && Eval(p, leaf, j) == Value(vs[i])
    ensures Eval(p, leaf, n) == p.fn(n, vs)
  {
    var rs := EvalArgs(p, leaf, n);
    forall i: nat | i < |rs|
      ensures rs[i] == Value(vs[i])
    {}
    assert Values(rs) == vs;
  }

  /** A node with arguments that fail fails as one of them does, and a promise has its own result. */
  lemma EvalFails(p: Program, leaf: nat -> Result, n: nat, i: nat)
    requires WellFormed(p) && n < |p.nodes| && p.nodes[n].Lazy? && i < |p.nodes[n].args| && p.nodes[n].args[i].Fut?
    requires p.nodes[n].args[i].j < |p.nodes| && Eval(p, leaf, p.nodes[n].args[i].j).Failed?
    ensures Eval(p, leaf, n).Failed?
    ensures exists q: nat ::
      && q < |p.nodes[n].args| && p.nodes[n].args[q].Fut? && p.nodes[n].args[q].j < |p.nodes|
      && Eval(p, leaf, n) == Eval(p, leaf, p.nodes[n].args[q].j)
  {
    var rs := EvalArgs(p, leaf, n);
    assert rs[i].Failed?;
    var q := p.pick(n, rs);
    assert q < |rs| && rs[q].Failed?;
  }

  /** `leaf` gives the results that the completed promises have. */
  ghost predicate Agrees(p: Program, s: seq<Cell>, leaf: nat -> Result) {
    forall j :: 0 <= j < |s| && j < |p.nodes| && p.nodes[j].Leaf? && s[j].status.Done? ==> leaf(j) == s[j].status.r
  }

  lemma {:induction false} DoneIsEval(p: Program, s: seq<Cell>, leaf: nat -> Result, n: nat)
    requires Inv(p, s) && Agrees(p, s, leaf) && n < |s| && s[n].status.Done?
    ensures s[n].status.r == Eval(p, leaf, n)
    decreases n
  {
    if p.nodes[n].Lazy? {
      assert LazyOk(p, s, n);
      var rs := Resolved(p, s, n);
      forall i: nat | i < |rs|
        ensures rs[i] == EvalArgs(p, leaf, n)[i]
      {
        if p.nodes[n].args[i].Fut? {
          DoneIsEval(p, s, leaf, p.nodes[n].args[i].j);
        }
      }
      assert rs == EvalArgs(p, leaf, n);
    }
  }

  /**
   * Whatever the order in which promises complete and notifications arrive: a result is the one of direct evaluation.
   */
  lemma ResultsAreEvaluations(p: Program, b: seq<seq<Cell>>, k: nat, leaf: nat -> Result, n: nat)
    requires WellFormed(p) && Behavior(p, b) && k < |b| && n < |b[k]| && n < |p.nodes|
    requires Agrees(p, b[k], leaf) && b[k][n].status.Done?
    ensures b[k][n].status.r == Eval(p, leaf, n)
  {
    InvAlways(p, b, k);
    DoneIsEval(p, b[k], leaf, n);
  }

  /** Nothing is left to do, short of completing promises and starting nodes from outside. */
  ghost predicate AtRest(p: Program, s: seq<Cell>)
    requires Shaped(p, s)
  {
    forall a: Action :: (a.InitStep? || a.StartStep? || a.Notify? || a.Invoke?) ==> !Enabled(p, s, a)
  }

  /** All promises that the node depends on are completed. */
  ghost predicate LeavesDone(p: Program, s: seq<Cell>, n: nat)
    requires Shaped(p, s) && n < |s|
    decreases n
  {
    match p.nodes[n]
    case Leaf => s[n].status.Done?
    case Lazy(args) => forall i :: 0 <= i < |args| && args[i].Fut? && args[i].j < n ==> LeavesDone(p, s, args[i].j)
  }

  lemma {:induction false} StartedIsDone(p: Program, s: seq<Cell>, n: nat)
    requires Inv(p, s) && AtRest(p, s) && n < |s| && LeavesDone(p, s, n) && !s[n].status.Deferred?
    ensures s[n].status.Done?
    decreases n
  {
    if p.nodes[n].Lazy? {
      assert LazyOk(p, s, n);
      NotYet(p, s, n);
      if s[n].phase.Starting? {
        if s[n].phase.k < |s[n].sites| {
          assert SiteOk(p, s, n, s[n].phase.k);
        }
        assert Enabled(p, s, StartStep(n));
      }
      forall i: nat | i < |s[n].sites|
        ensures Outstanding()(s[n].sites[i]) == 0
      {
        assert SiteOk(p, s, n, i);
        if p.nodes[n].args[i].Fut? {
          StartedIsDone(p, s, p.nodes[n].args[i].j);
          CounterIsPositive(p, s, n, i);
          assert !Enabled(p, s, Notify(n, i));
        }
      }
      SumZero(s[n].sites, Outstanding());
      ZeroMeansReady(p, s, n);
      assert !Enabled(p, s, Invoke(n));
    }
  }

  lemma {:induction false} IsConstructed(p: Program, s: seq<Cell>, n: nat)
    requires Inv(p, s) && AtRest(p, s) && n < |s|
    ensures !s[n].phase.Init?
    decreases n
  {
    if p.nodes[n].Lazy? && s[n].phase.Init? {
      assert LazyOk(p, s, n);
      var k := s[n].phase.k;
      if k < |s[n].sites| && p.nodes[n].args[k].Fut? {
        IsConstructed(p, s, p.nodes[n].args[k].j);
      }
      assert Enabled(p, s, InitStep(n));
    }
  }

  /** At rest every node is constructed: it is started, or can be; a promise is completed, or can be. */
  lemma EveryNodeCanBeStarted(p: Program, b: seq<seq<Cell>>, k: nat, n: nat, r: Result)
    requires WellFormed(p) && Behavior(p, b) && k < |b| && Shaped(p, b[k]) && AtRest(p, b[k]) && n < |b[k]|
    ensures if p.nodes[n].Leaf? then b[k][n].status.Done? || Enabled(p, b[k], SetLeaf(n, r))
            else !b[k][n].status.Deferred? || Enabled(p, b[k], Begin(n))
  {
    InvAlways(p, b, k);
    IsConstructed(p, b[k], n);
    assert if p.nodes[n].Leaf? then LeafOk(b[k][n]) else LazyOk(p, b[k], n);
  }

  /**
   * Completeness: once the promises a started node depends on are completed and all threads have
   * come to rest, the node holds the result of direct evaluation.
   */
  lemma StartedRootHoldsEvaluation(p: Program, b: seq<seq<Cell>>, k: nat, leaf: nat -> Result, n: nat)
    requires WellFormed(p) && Behavior(p, b) && k < |b| && n < |b[k]| && n < |p.nodes| && Shaped(p, b[k])
    requires AtRest(p, b[k]) && Agrees(p, b[k], leaf) && LeavesDone(p, b[k], n) && !b[k][n].status.Deferred?
    ensures b[k][n].status == Done(Eval(p, leaf, n))
  {
    InvAlways(p, b, k);
    StartedIsDone(p, b[k], n);
    DoneIsEval(p, b[k], leaf, n);
  }

  // ---------------------------------------------------------------- every run comes to rest

  function SiteLeft(): Site -> int {
    (x: Site) => match x case Fresh => 3 case Counted => 2 case Listed => 1 case Notified => 0
  }

  function PhaseLeft(c: Cell): int {
    match c.phase
    case Init(k) => 2 * |c.sites| - k + 4
    case Idle => |c.sites| + 3
    case Starting(k) => |c.sites| - k + 1
    case Started => 0
  }

  /** The steps that a node can still take part in. */
  function Left(): Cell -> int {
    (c: Cell) =>
      PhaseLeft(c) + Sum(c.sites, SiteLeft()) + (match c.fire case No => 2 case Pending => 1 case Fired => 0)
      + if c.status.Done? then 0 else 1
  }

  lemma {:induction false} LeftIsNatural(p: Program, s: seq<Cell>)
    requires Inv(p, s)
    ensures forall n :: 0 <= n < |s| ==> 0 <= Left()(s[n])
    ensures 0 <= Sum(s, Left())
  {
    forall n: nat | n < |s|
      ensures 0 <= Left()(s[n])
    {
      SumNonNegative(s[n].sites, SiteLeft());
      if p.nodes[n].Lazy? {
        assert LazyOk(p, s, n);
      } else {
        assert LeafOk(s[n]);
      }
    }
    SumNonNegative(s, Left());
  }

  /** What a step does to its own node. */
  lemma NodeLeft(p: Program, s: seq<Cell>, a: Action)
    requires Inv(p, s) && Enabled(p, s, a)
    ensures Left()(Apply(p, s, a)[a.n]) < Left()(s[a.n])
  {
    var n := a.n;
    if p.nodes[n].Lazy? {
      assert LazyOk(p, s, n);
      NotYet(p, s, n);
    }
    match a
    case SetLeaf(_, r) =>
    case Begin(_) =>
    case InitStep(_) =>
      if s[n].phase.k < |s[n].sites| {
        assert SiteOk(p, s, n, s[n].phase.k);
        SumUpdate(s[n].sites, s[n].phase.k, Apply(p, s, a)[n].sites[s[n].phase.k], SiteLeft());
      }
    case StartStep(_) =>
      if s[n].phase.k < |s[n].sites| {
        assert SiteOk(p, s, n, s[n].phase.k);
      }
    case Notify(_, i) => SumUpdate(s[n].sites, i, Notified, SiteLeft());
    case Invoke(_) =>
  }

  lemma StepLowersLeft(p: Program, s: seq<Cell>, a: Action)
    requires Inv(p, s) && Enabled(p, s, a)
    ensures Sum(Apply(p, s, a), Left()) < Sum(s, Left())
  {
    var s', n := Apply(p, s, a), a.n;
    NodeLeft(p, s, a);
    SumUpdate(s, n, s'[n], Left());
    if a.StartStep? && s[n].phase.k < |p.nodes[n].args| && p.nodes[n].args[s[n].phase.k].Fut? {
      var s1, j := s[n := s[n].(phase := Starting(s[n].phase.k + 1))], p.nodes[n].args[s[n].phase.k].j;
      assert j < n;
      SumUpdate(s1, j, s'[j], Left());
    }
  }

  lemma NextLowersLeft(p: Program, b: seq<seq<Cell>>, k: nat)
    requires WellFormed(p) && Behavior(p, b) && k + 1 < |b|
    ensures Sum(b[k + 1], Left()) < Sum(b[k], Left())
  {
    InvAlways(p, b, k);
    assert StepAt(p, b, k);
    var a :| Enabled(p, b[k], a) && b[k + 1] == Apply(p, b[k], a);
    StepLowersLeft(p, b[k], a);
  }

  lemma LeftAlwaysNatural(p: Program, b: seq<seq<Cell>>, k: nat)
    requires WellFormed(p) && Behavior(p, b) && k < |b|
    ensures 0 <= Sum(b[k], Left())
  {
    InvAlways(p, b, k);
    LeftIsNatural(p, b[k]);
  }

  /** No run is longer than what there was to do at its start: every run comes to rest. */
  lemma {:induction false} RunsAreFinite(p: Program, b: seq<seq<Cell>>, k: nat)
    requires WellFormed(p) && Behavior(p, b) && k < |b|
    ensures 0 <= Sum(b[k], Left()) && k + Sum(b[k], Left()) <= Sum(b[0], Left())
  {
    LeftAlwaysNatural(p, b, k);
    if k > 0 {
      NextLowersLeft(p, b, k - 1);
      RunsAreFinite(p, b, k - 1);
    }
  }
}
