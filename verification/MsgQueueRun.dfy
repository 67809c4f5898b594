/**
 * The event code of a message queue run by one thread, callbacks included: a callback may put
 * messages in, take them out, and replace or clear the callback while it runs.
 */
module MsgQueueRun {
  import opened MsgQueueEvents

  /** What a running callback does to its own queue. */
  datatype Op = Send | Receive | Replace(fn: nat) | Remove

  /** The callback in force after the callback `ev` did `ops`: the last one installed, or none after it was cleared. */
  function InForce(ev: nat, ops: seq<Op>): nat {
    if ops == [] then ev
    else
      match ops[|ops| - 1]
      case Replace(fn) => fn
      case Remove => 0
      case _ => InForce(ev, ops[..|ops| - 1])
  }

  predicate Touched(ops: seq<Op>) {
    ops != [] && (Touched(ops[..|ops| - 1]) || ops[|ops| - 1].Replace? || ops[|ops| - 1].Remove?)
  }

  function SizeAfter(size: nat, ops: seq<Op>): nat {
    if ops == [] then size
    else
      var n := SizeAfter(size, ops[..|ops| - 1]);
      match ops[|ops| - 1]
      case Send => n + 1
      case Receive => if n > 0 then n - 1 else 0
      case _ => n
  }

  /**
   * Whether `ops` ask for another event: a message came in, or the callback was replaced, either
   * while it was still in force or with messages waiting.
   */
  predicate AsksAgain(size: nat, ops: seq<Op>) {
    ops != []
    && var rest, op := ops[..|ops| - 1], ops[|ops| - 1];
       AsksAgain(size, rest) || op.Send? || (op.Replace? && (!Touched(rest) || SizeAfter(size, rest) > 0))
  }

  /**
   * What a call of `_fire` comes to: the callbacks that ran, the one in force at the end, the messages waiting then.
   */
  datatype Outcome = Outcome(runs: seq<nat>, ev: nat, size: nat)

  /** The outcome when the k-th callback to run does `scripts[k]`. */
  function Fired(ev: nat, size: nat, scripts: seq<seq<Op>>): Outcome
    decreases |scripts|
  {
    if ev == 0 then Outcome([], 0, size)
    else
      var ops := if scripts == [] then [] else scripts[0];
      var ev1, size1 := InForce(ev, ops), SizeAfter(size, ops);
      if !AsksAgain(size, ops) then Outcome([ev], ev1, size1)
      else
        var rest := Fired(ev1, size1, scripts[1..]);
        rest.(runs := [ev] + rest.runs)
  }

  /** What the k-th callback to run does. */
  function Script(scripts: seq<seq<Op>>, k: nat): seq<Op> {
    if k < |scripts| then scripts[k] else []
  }

  /** Another event is asked for exactly by a message, or by replacing a callback in force, or with messages there. */
  lemma {:induction false} AskedBy(size: nat, ops: seq<Op>)
    ensures AsksAgain(size, ops) <==>
      exists i: nat ::
        i < |ops| && (ops[i].Send? || (ops[i].Replace? && (!Touched(ops[..i]) || SizeAfter(size, ops[..i]) > 0)))
  {
    if ops != [] {
      var n := |ops| - 1;
      AskedBy(size, ops[..n]);
      assert forall i :: 0 <= i <= n ==> ops[..n][..i] == ops[..i];
      assert forall i :: 0 <= i < n ==> ops[..n][i] == ops[i];
      if AsksAgain(size, ops[..n]) {
        var i: nat :| i < n && (ops[..n][i].Send? || (ops[..n][i].Replace?
          && (!Touched(ops[..n][..i]) || SizeAfter(size, ops[..n][..i]) > 0)));
        assert ops[i] == ops[..n][i];
      }
    }
  }

  /** The messages waiting when the k-th callback starts. */
  function SizeAt(size: nat, scripts: seq<seq<Op>>, k: nat): nat {
    if k == 0 then size else SizeAfter(SizeAt(size, scripts, k - 1), Script(scripts, k - 1))
  }

  /** The next callback runs exactly if another event was asked for and a callback is in force, and it is that one. */
  lemma {:induction false} RunsFollow(ev: nat, size: nat, scripts: seq<seq<Op>>, k: nat)
    requires k < |Fired(ev, size, scripts).runs|
    ensures ev != 0 && Fired(ev, size, scripts).runs[0] == ev
    ensures var runs, ops := Fired(ev, size, scripts).runs, Script(scripts, k);
      && (k + 1 < |runs| <==> AsksAgain(SizeAt(size, scripts, k), ops) && InForce(runs[k], ops) != 0)
      && (k + 1 < |runs| ==> runs[k + 1] == InForce(runs[k], ops))
      && (k + 1 == |runs| ==>
        Fired(ev, size, scripts).ev == InForce(runs[k], ops)
        && Fired(ev, size, scripts).size == SizeAfter(SizeAt(size, scripts, k), ops))
    decreases k
  {
    if k > 0 {
      var ops := Script(scripts, 0);
      RunsFollow(InForce(ev, ops), SizeAfter(size, ops), scripts[1..], k - 1);
      SizeLater(size, scripts, k - 1);
    }
  }

  lemma {:induction false} SizeLater(size: nat, scripts: seq<seq<Op>>, k: nat)
    requires scripts != []
    ensures SizeAt(SizeAfter(size, Script(scripts, 0)), scripts[1..], k) == SizeAt(size, scripts, k + 1)
  {
    if k > 0 {
      SizeLater(size, scripts, k - 1);
    }
  }

  /** Once another event was asked for, nothing takes that back; replacing a callback in force asks for one. */
  lemma {:induction false} ReplacingAsks(size: nat, ops: seq<Op>, i: nat)
    requires i < |ops| && ops[i].Replace? && !Touched(ops[..i])
    ensures AsksAgain(size, ops)
  {
    if i == |ops| - 1 {
      assert ops[..|ops| - 1] == ops[..i];
    } else {
      assert ops[..|ops| - 1][..i] == ops[..i];
      ReplacingAsks(size, ops[..|ops| - 1], i);
    }
  }

  /**
   * Whenever a callback replaces itself while it is in force, whatever else it does, the callback
   * that it leaves in force runs next, unless that was cleared again.
   */
  lemma {:induction false} ReplacementRunsNext(ev: nat, size: nat, scripts: seq<seq<Op>>, k: nat, i: nat)
    requires k < |Fired(ev, size, scripts).runs| && i < |Script(scripts, k)|
    requires Script(scripts, k)[i].Replace? && !Touched(Script(scripts, k)[..i])
    requires InForce(Fired(ev, size, scripts).runs[k], Script(scripts, k)) != 0
    ensures var runs := Fired(ev, size, scripts).runs;
      k + 1 < |runs| && runs[k + 1] == InForce(runs[k], Script(scripts, k))
    decreases k
  {
    var ops := Script(scripts, 0);
    if k == 0 {
      ReplacingAsks(size, ops, i);
    } else {
      ReplacementRunsNext(InForce(ev, ops), SizeAfter(size, ops), scripts[1..], k - 1, i);
    }
  }

  /**
   * When messages are waiting at the end, the callback in force is the
   * one that ran last: none is left behind with work to do.
   */
  lemma {:induction false} LastOneHasRun(ev: nat, size: nat, scripts: seq<seq<Op>>)
    requires Fired(ev, size, scripts).ev != 0 && Fired(ev, size, scripts).size != 0
    ensures var o := Fired(ev, size, scripts); o.runs != [] && o.runs[|o.runs| - 1] == o.ev
    decreases |scripts|
  {
    var ops := if scripts == [] then [] else scripts[0];
    if AsksAgain(size, ops) {
      LastOneHasRun(InForce(ev, ops), SizeAfter(size, ops), scripts[1..]);
    } else {
      NotAsked(ev, size, ops);
    }
  }

  /** Operations that do not ask for another event leave the callback alone, or none, or no messages. */
  lemma {:induction false} NotAsked(ev: nat, size: nat, ops: seq<Op>)
    requires !AsksAgain(size, ops)
    ensures InForce(ev, ops) == ev || InForce(ev, ops) == 0 || SizeAfter(size, ops) == 0
  {
    if ops != [] {
      NotAsked(ev, size, ops[..|ops| - 1]);
    }
  }

  /** The outcome of a call in progress: `ran` ran already. */
  function InProgress(ran: seq<nat>, ev: nat, size: nat, scripts: seq<seq<Op>>): Outcome {
    var o := Fired(ev, size, scripts);
    o.(runs := ran + o.runs)
  }

  /** One round of `_fire` leaves the outcome as it is. */
  lemma FiredRound(ran: seq<nat>, ev: nat, size: nat, scripts: seq<seq<Op>>)
    ensures var ops := if scripts == [] then [] else scripts[0];
      InProgress(ran, ev, size, scripts) ==
        if ev == 0 then Outcome(ran, 0, size)
        else if !AsksAgain(size, ops) then Outcome(ran + [ev], InForce(ev, ops), SizeAfter(size, ops))
        else InProgress(ran + [ev], InForce(ev, ops), SizeAfter(size, ops), scripts[1..])
  {
    var ops := if scripts == [] then [] else scripts[0];
    assert ran + [] == ran;
    if ev != 0 && AsksAgain(size, ops) {
      var o1 := Fired(InForce(ev, ops), SizeAfter(size, ops), scripts[1..]);
      assert ran + ([ev] + o1.runs) == ran + [ev] + o1.runs;
    }
  }

  /** The events of a message queue; messages are counted, callbacks numbered. */
  class Queue {
    var st: Status
    var ev: nat
    var restore: bool
    var size: nat
    ghost var runs: seq<nat>  // the callbacks that have run

    constructor ()
      ensures st == Idle && ev == 0 && !restore && size == 0 && runs == []
    {
      st, ev, restore, size, runs := Idle, 0, false, 0, [];
    }

    /** One operation of a running callback; when it fires, the state is not IDLE. */
    method Perform(op: Op)
      requires !st.Idle?
      modifies this`st, this`ev, this`restore, this`size
      ensures st == if op.Send? || (op.Replace? && (old(restore) || old(size) > 0)) then Again else old(st)
      ensures ev == (match op case Replace(fn) => fn case Remove => 0 case _ => old(ev))
      ensures restore == (old(restore) && !op.Replace? && !op.Remove?)
      ensures size == (match op
        case Send => old(size) + 1
        case Receive => (if old(size) > 0 then old(size) - 1 else 0)
        case _ => old(size))
    {
      match op
      case Send =>
        size := size + 1;
        st := Again;
      case Receive =>
        if size > 0 {
          size := size - 1;
        }
      case Replace(fn) =>
        ev := fn;
        if restore {
          restore := false;
          st := Again;
        }
        if size > 0 {
          st := Again;
        }
      case Remove =>
        ev, restore := 0, false;
    }

    /** `_fire_event`, with a callback that does `ops`. */
    method FireEvent(ops: seq<Op>)
      requires st.Busy? && !restore
      modifies this`st, this`ev, this`restore, this`size, this`runs
      ensures !restore
      ensures old(ev) == 0 ==> st == Busy && ev == 0 && runs == old(runs) && size == old(size)
      ensures old(ev) != 0 ==>
                && ev == InForce(old(ev), ops) && size == SizeAfter(old(size), ops) && runs == old(runs) + [old(ev)]
                && st == if AsksAgain(old(size), ops) then Again else Busy
    {
      var tmp := ev;
      ev := 0;
      if tmp != 0 {
        restore := true;
        runs := runs + [tmp];
        var i := 0;
        while i < |ops|
          invariant i <= |ops| && runs == old(runs) + [tmp] && restore == !Touched(ops[..i])
          invariant size == SizeAfter(old(size), ops[..i])
          invariant st == if AsksAgain(old(size), ops[..i]) then Again else Busy
          invariant if restore then ev == 0 && InForce(tmp, ops[..i]) == tmp else ev == InForce(tmp, ops[..i])
        {
          assert ops[..i + 1][..i] == ops[..i];
          Perform(ops[i]);
          i := i + 1;
        }
        assert ops[..i] == ops;
        if restore {
          ev := tmp;
          restore := false;
        }
      }
    }

    /** `_fire`: fires until nobody asked for another event meanwhile. */
    method Fire(scripts: seq<seq<Op>>)
      requires !restore
      modifies this
      ensures !restore
      ensures !old(st).Idle? ==> st == Again && ev == old(ev) && size == old(size) && runs == old(runs)
      ensures old(st).Idle? ==>
                var o := Fired(old(ev), old(size), scripts);
                st == Idle && runs == old(runs) + o.runs && ev == o.ev && size == o.size
    {
      var was := st;
      st := Again;
      if !was.Idle? {
        return;
      }
      var rest := scripts;
      ghost var ran, total := [], InProgress([], ev, size, scripts);
      while !st.Idle?
        invariant !restore && (st.Idle? || st.Again?) && runs == old(runs) + ran
        invariant total == if st.Again? then InProgress(ran, ev, size, rest) else Outcome(ran, ev, size)
        decreases |rest|, st.Again?
      {
        FiredRound(ran, ev, size, rest);
        ran := if ev != 0 then ran + [ev] else ran;
        st := Busy;
        FireEvent(if rest == [] then [] else rest[0]);
        if st.Busy? {
          st := Idle;
        } else {
          rest := rest[1..];
        }
      }
    }
  }
}
