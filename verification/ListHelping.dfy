/**
 * Helping: completing the unlinking of runs of nodes that other threads S-marked. What the words
 * say afterwards, and which nodes, words and elements are left alone.
 */
module ListHelping {
  import opened ListLine
  import opened ListModel

  /** What `a` and the run of nodes behind it look like when every node of the run is S-marked by its predecessor. */
  predicate Run(succ: seq<SWord>, pred: seq<PWord>, a: nat, run: seq<nat>, b: nat)
    requires |succ| == |pred|
  {
    && 0 < a < |succ| && 0 < b < |succ| && a !in run && b !in run
    && run != [] && succ[a].ptr == run[0] && succ[a].s && !pred[b].m
    && (forall i :: 0 <= i < |run| ==> 0 < run[i] < |succ|)
    && (forall i, j :: 0 <= i < j < |run| ==> run[i] != run[j])
    && (forall i :: 0 <= i < |run| ==> RunOk(succ, pred, a, run, b, i))
  }

  predicate RunOk(succ: seq<SWord>, pred: seq<PWord>, a: nat, run: seq<nat>, b: nat, i: nat)
    requires i < |run| && run[i] < |succ| && run[i] < |pred|
  {
    && succ[run[i]].ptr == (if i < |run| - 1 then run[i + 1] else b)
    && succ[run[i]].s == (i < |run| - 1)
    && pred[run[i]].ptr != 0 && (pred[run[i]].m ==> pred[run[i]].ptr == Before(a, run, i))
  }

  function Before(a: nat, run: seq<nat>, i: nat): nat
    requires i < |run|
  {
    if i == 0 then a else run[i - 1]
  }

  /** Successor words after the run was unlinked: `a` reaches `b`, the nodes of the run are cut off. */
  function HelpedSucc(succ: seq<SWord>, a: nat, run: seq<nat>, b: nat): (r: seq<SWord>)
    ensures |r| == |succ|
  {
    seq(|succ|, y requires 0 <= y < |succ| =>
      if y == a then SWord(b, false, succ[a].d) else if y in run then SNIL else succ[y])
  }

  /** Predecessor words after the run was unlinked: marked for its nodes, and `b` no longer names one of them. */
  function HelpedPred(pred: seq<PWord>, a: nat, run: seq<nat>, b: nat): (r: seq<PWord>)
    ensures |r| == |pred|
  {
    seq(|pred|, y requires 0 <= y < |pred| =>
      if y in run then PWord(Before(a, run, Place(run, y)), true)
      else if y == b && pred[b].ptr in run then PWord(a, pred[b].m)
      else pred[y])
  }

  lemma PlaceOfRest(a: nat, run: seq<nat>, y: nat)
    requires run != [] && y in run[1..] && y != run[0]
    ensures Before(a, run, Place(run, y)) == Before(run[0], run[1..], Place(run[1..], y))
  {}

  /** Behind the first node of a run, the rest is a run of its own once the first node is marked. */
  lemma RunRest(succ: seq<SWord>, pred: seq<PWord>, a: nat, run: seq<nat>, b: nat)
    requires |succ| == |pred| && Run(succ, pred, a, run, b) && |run| > 1
    ensures var x := run[0];
      Run(succ[x := succ[x].(d := true)], pred[x := PWord(a, true)], x, run[1..], b)
  {
    var x, rest := run[0], run[1..];
    assert RunOk(succ, pred, a, run, b, 0);
    var succ', pred' := succ[x := succ[x].(d := true)], pred[x := PWord(a, true)];
    forall i | 0 <= i < |rest|
      ensures RunOk(succ', pred', x, rest, b, i)
    {
      assert RunOk(succ, pred, a, run, b, i + 1);
    }
  }

  /** Unlinking a run is unlinking the rest of it first, then its first node: successor words. */
  lemma HelpedSuccCons(succ: seq<SWord>, a: nat, run: seq<nat>, b: nat)
    requires run != [] && a < |succ| && run[0] < |succ| && a !in run && b !in run && run[0] !in run[1..]
    ensures var x := run[0];
      var succ2 := HelpedSucc(succ[x := succ[x].(d := true)], x, run[1..], b);
      && succ2[x] == SWord(b, false, true) && succ2[a] == succ[a]
      && HelpedSucc(succ, a, run, b) == succ2[a := SWord(b, false, succ[a].d)][x := SNIL]
  {
    assert run == [run[0]] + run[1..];
  }

  /** Unlinking a run is unlinking the rest of it first, then its first node: predecessor words. */
  lemma HelpedPredCons(pred: seq<PWord>, a: nat, run: seq<nat>, b: nat)
    requires run != [] && run[0] < |pred| && b < |pred| && b !in run && run[0] !in run[1..]
    ensures var x := run[0];
      var pred2 := HelpedPred(pred[x := PWord(a, true)], x, run[1..], b);
      HelpedPred(pred, a, run, b) == if pred2[b].ptr == x then pred2[b := PWord(a, pred2[b].m)] else pred2
  {
    var x, rest := run[0], run[1..];
    assert run == [x] + rest;
    forall y | y in rest
      ensures Before(a, run, Place(run, y)) == Before(x, rest, Place(rest, y))
    {
      PlaceOfRest(a, run, y);
    }
  }

  // ---------------------------------------------------------------- runs of a line

  /** The nodes that are being unlinked behind place `k`, up to the first one that is not. */
  function RunBehind(l: Line, k: nat): seq<nat>
    requires k + 1 < |l.nodes|
    decreases |l.nodes| - k
  {
    var n := Next(l, k);
    if n + 1 < |l.nodes| && l.nodes[n] in l.dead then [l.nodes[n]] + RunBehind(l, n) else []
  }

  /** The place of that one. */
  function RunEnd(l: Line, k: nat): (e: nat)
    requires k + 1 < |l.nodes|
    ensures k < e < |l.nodes|
    decreases |l.nodes| - k
  {
    var n := Next(l, k);
    if n + 1 < |l.nodes| && l.nodes[n] in l.dead then RunEnd(l, n) else n
  }

  /** The line after the run behind place `k` was cut out, from the last node of it to the first. */
  function CutRun(l: Line, k: nat): (l': Line)
    requires k + 1 < |l.nodes|
    ensures l'.nodes == l.nodes
    decreases |l.nodes| - k
  {
    var n := Next(l, k);
    if n + 1 < |l.nodes| && l.nodes[n] in l.dead then CutAt(CutRun(l, n), n) else l
  }

  /** The nodes of the run stand behind place `k`, and are being unlinked. */
  lemma {:induction false} RunNodes(l: Line, head: nat, size: nat, k: nat)
    requires Shape(l, head, size) && k + 1 < |l.nodes|
    ensures l.nodes[RunEnd(l, k)] !in l.dead && On(l, RunEnd(l, k))
    ensures forall y :: y in RunBehind(l, k) ==>
      0 < y < size && y in l.dead && y !in l.gone && y != head && Among(l, k + 1, RunEnd(l, k), y)
    decreases |l.nodes| - k
  {
    var n := Next(l, k);
    NextIsOn(l, head, size, k);
    if n + 1 < |l.nodes| && l.nodes[n] in l.dead {
      RunNodes(l, head, size, n);
      forall y | y in RunBehind(l, k)
        ensures 0 < y < size && y in l.dead && y !in l.gone && y != head && Among(l, k + 1, RunEnd(l, k), y)
      {
        if y != l.nodes[n] {
          assert y in RunBehind(l, n);
          var j: nat :| n + 1 <= j < RunEnd(l, n) && l.nodes[j] == y;
        }
      }
    }
  }

  /** Cutting a run out changes the state of its nodes only. */
  lemma {:induction false} CutRunNodes(l: Line, k: nat)
    requires k + 1 < |l.nodes|
    ensures forall y :: y in CutRun(l, k).dead <==> y in l.dead && y !in RunBehind(l, k)
    ensures forall y :: y in CutRun(l, k).gone <==> y in l.gone || y in RunBehind(l, k)
    decreases |l.nodes| - k
  {
    var n := Next(l, k);
    if n + 1 < |l.nodes| && l.nodes[n] in l.dead {
      CutRunNodes(l, n);
    }
  }

  lemma NoneAmong(l: Line, head: nat, size: nat, lo: nat, hi: nat, y: nat, q: nat)
    requires Shape(l, head, size) && hi <= |l.nodes| && Among(l, lo, hi, y) && y != head && q < |l.nodes|
    requires q < lo || hi <= q
    ensures l.nodes[q] != y
  {
    var j: nat :| lo <= j < hi && l.nodes[j] == y;
    if l.nodes[q] == y {
      ChainPlace(l.nodes, head, size, q, j);
    }
  }

  lemma RunIsBehind(l: Line, head: nat, size: nat, k: nat)
    requires Shape(l, head, size) && k + 1 < |l.nodes|
    ensures l.nodes[k] !in RunBehind(l, k) && l.nodes[RunEnd(l, k)] !in RunBehind(l, k)
  {
    RunNodes(l, head, size, k);
    forall y | y in RunBehind(l, k)
      ensures y != l.nodes[k] && y != l.nodes[RunEnd(l, k)]
    {
      NoneAmong(l, head, size, k + 1, RunEnd(l, k), y, k);
      NoneAmong(l, head, size, k + 1, RunEnd(l, k), y, RunEnd(l, k));
    }
  }

  /** The node at place `n` and the run behind it, seen from the node before. */
  lemma RunFirst(succ: seq<SWord>, pred: seq<PWord>, l: Line, head: nat, k: nat)
    requires Spells(succ, pred, l, head) && On(l, k) && k + 1 < |l.nodes| && l.nodes[Next(l, k)] in l.dead
    ensures var n := Next(l, k); var run := RunBehind(l, n);
      && n + 1 < |l.nodes| && On(l, n) && RunBehind(l, k) == [l.nodes[n]] + run && RunEnd(l, k) == RunEnd(l, n)
      && l.nodes[k] !in RunBehind(l, k) && l.nodes[RunEnd(l, k)] !in RunBehind(l, k) && l.nodes[n] !in run
      && (forall y :: y in RunBehind(l, k) ==> 0 < y < |succ|)
  {
    var n := Next(l, k);
    assert l.nodes[n] != head;
    NextIsOn(l, head, |succ|, k);
    RunNodes(l, head, |succ|, k);
    RunIsBehind(l, head, |succ|, k);
    RunIsBehind(l, head, |succ|, n);
  }

  lemma {:induction false} RunIs(succ: seq<SWord>, pred: seq<PWord>, l: Line, head: nat, k: nat)
    requires Spells(succ, pred, l, head) && On(l, k) && k + 1 < |l.nodes| && l.nodes[Next(l, k)] in l.dead
    ensures Run(succ, pred, l.nodes[k], RunBehind(l, k), l.nodes[RunEnd(l, k)])
    decreases |l.nodes| - k
  {
    var n := Next(l, k);
    RunFirst(succ, pred, l, head, k);
    RunNodes(l, head, |succ|, k);
    assert SuccOk(succ, pred, l, k) && SuccOk(succ, pred, l, n) && PredOk(pred, l, n) && PredOk(pred, l, RunEnd(l, k));
    PrevOfNext(l, k);
    NextIsOn(l, head, |succ|, n);
    var run, rest, b := RunBehind(l, k), RunBehind(l, n), l.nodes[RunEnd(l, k)];
    if l.nodes[Next(l, n)] in l.dead {
      RunIs(succ, pred, l, head, n);
      RunCons(succ, pred, l.nodes[k], l.nodes[n], rest, b);
    } else {
      assert rest == [];
      assert RunOk(succ, pred, l.nodes[k], run, b, 0);
    }
  }

  lemma RunCons(succ: seq<SWord>, pred: seq<PWord>, a: nat, x: nat, rest: seq<nat>, b: nat)
    requires |succ| == |pred| && Run(succ, pred, x, rest, b) && 0 < a < |succ| && a !in [x] + rest && b != x
    requires succ[a].ptr == x && succ[a].s && pred[x].ptr != 0 && (pred[x].m ==> pred[x].ptr == a)
    ensures Run(succ, pred, a, [x] + rest, b)
  {
    var run := [x] + rest;
    forall i | 0 <= i < |run|
      ensures RunOk(succ, pred, a, run, b, i)
    {
      if i > 0 {
        assert RunOk(succ, pred, x, rest, b, i - 1);
      }
    }
  }

  /** Helping the run behind place `k` cuts it out of the line. */
  lemma {:induction false} SpellsHelp(succ: seq<SWord>, pred: seq<PWord>, l: Line, head: nat, k: nat)
    requires Spells(succ, pred, l, head) && On(l, k) && k + 1 < |l.nodes| && l.nodes[Next(l, k)] in l.dead
    ensures var a, run, b := l.nodes[k], RunBehind(l, k), l.nodes[RunEnd(l, k)];
      Spells(HelpedSucc(succ, a, run, b), HelpedPred(pred, a, run, b), CutRun(l, k), head)
    ensures Next(CutRun(l, k), k) == RunEnd(l, k)
    decreases |l.nodes| - k
  {
    var n := Next(l, k);
    RunFirst(succ, pred, l, head, k);
    SpellsLeaving(succ, pred, l, head, k);
    NextIsOn(l, head, |succ|, n);
    var a, x, rest, b := l.nodes[k], l.nodes[n], RunBehind(l, n), l.nodes[RunEnd(l, n)];
    var succ1, pred1 := succ[x := succ[x].(d := true)], pred[x := PWord(a, true)];
    if l.nodes[Next(l, n)] in l.dead {
      SpellsHelp(succ1, pred1, l, head, n);
    } else {
      assert SuccOk(succ1, pred1, l, n);
      HelpedNothing(succ1, pred1, x, b);
    }
    HelpLast(succ, pred, l, head, k, n, HelpedSucc(succ1, x, rest, b), HelpedPred(pred1, x, rest, b));
  }

  lemma HelpedNothing(succ: seq<SWord>, pred: seq<PWord>, a: nat, b: nat)
    requires a < |succ| && succ[a].ptr == b && !succ[a].s
    ensures HelpedSucc(succ, a, [], b) == succ && HelpedPred(pred, a, [], b) == pred
  {}

  /** The first node of a run is cut out last. */
  lemma HelpLast(succ: seq<SWord>, pred: seq<PWord>, l: Line, head: nat, k: nat, n: nat,
      succ2: seq<SWord>, pred2: seq<PWord>)
    requires |succ| == |pred| && Shape(l, head, |succ|) && On(l, k) && k + 1 < |l.nodes| && n == Next(l, k)
    requires n + 1 < |l.nodes| && On(l, n) && l.nodes[n] in l.dead
    requires forall y :: y in RunBehind(l, k) ==> 0 < y < |succ|
    requires l.nodes[k] !in RunBehind(l, k) && l.nodes[RunEnd(l, k)] !in RunBehind(l, k)
    requires l.nodes[n] !in RunBehind(l, n)
    requires var a, x, b := l.nodes[k], l.nodes[n], l.nodes[RunEnd(l, n)];
      && succ2 == HelpedSucc(succ[x := succ[x].(d := true)], x, RunBehind(l, n), b)
      && pred2 == HelpedPred(pred[x := PWord(a, true)], x, RunBehind(l, n), b)
    requires Spells(succ2, pred2, CutRun(l, n), head) && Next(CutRun(l, n), n) == RunEnd(l, n)
    ensures var a, run, b := l.nodes[k], RunBehind(l, k), l.nodes[RunEnd(l, k)];
      Spells(HelpedSucc(succ, a, run, b), HelpedPred(pred, a, run, b), CutRun(l, k), head)
    ensures Next(CutRun(l, k), k) == RunEnd(l, k)
  {
    var a, x, run, b, l2 := l.nodes[k], l.nodes[n], RunBehind(l, k), l.nodes[RunEnd(l, n)], CutRun(l, n);
    assert run[0] == x && run[1..] == RunBehind(l, n);
    HelpedSuccCons(succ, a, run, b);
    HelpedPredCons(pred, a, run, b);
    CutRunNodes(l, n);
    NextCleared(l, k);
    NextIs(l2, k, n);
    SpellsCut(succ2, pred2, l2, head, k);
    assert CutSucc(succ2, a, x, b) == HelpedSucc(succ, a, run, b);
    assert CutPred(pred2, a, x, b) == HelpedPred(pred, a, run, b);
    CutNeighbours(l2, head, |succ|, n, k);
  }

  // ---------------------------------------------------------------- what helping leaves alone

  /** Only nodes that were being unlinked have been cut out. */
  ghost predicate Helped(l: Line, l': Line) {
    && l'.nodes == l.nodes && l'.dead <= l.dead
    && (forall y :: y in l'.gone <==> y in l.gone || (y in l.dead && y !in l'.dead))
  }

  /**
   * What helping may do to the words of node `y`: nothing if it is no node of the chain. One that was
   * cut out is cut off, and its word names a node that was in the chain. Another one keeps its D mark,
   * and its predecessor word, unless it named a node that was cut out or `y` is in `free`.
   */
  predicate FrameAt(succ: seq<SWord>, pred: seq<PWord>, succ': seq<SWord>, pred': seq<PWord>, l: Line, l': Line,
      free: set<nat>, y: nat)
    requires y < |succ| && y < |pred| && y < |succ'| && y < |pred'|
  {
    if y !in l.nodes || y in l.gone then succ'[y] == succ[y] && (pred'[y] == pred[y] || y in free)
    else if y in l'.gone then succ'[y] == SNIL && ((pred'[y].m && pred'[y].ptr !in l.gone) || y in free)
    else
      && succ'[y].d == succ[y].d
      && (|| pred'[y] == pred[y] || y in free
          || (&& pred[y].ptr in l'.gone && pred[y].ptr !in l.gone
              && pred'[y].m == pred[y].m && pred'[y].ptr !in l.gone))
  }

  ghost predicate Framed(succ: seq<SWord>, pred: seq<PWord>, succ': seq<SWord>, pred': seq<PWord>, l: Line, l': Line,
      free: set<nat>)
  {
    && |succ'| == |succ| && |pred'| == |pred| == |succ|
    && forall y :: 0 <= y < |succ| ==> FrameAt(succ, pred, succ', pred', l, l', free, y)
  }

  lemma HelpedFurther(l: Line, l1: Line, l2: Line)
    requires Helped(l, l1) && Helped(l1, l2)
    ensures Helped(l, l2)
  {}

  lemma FramedFurther(succ: seq<SWord>, pred: seq<PWord>, succ1: seq<SWord>, pred1: seq<PWord>,
      succ2: seq<SWord>, pred2: seq<PWord>, l: Line, l1: Line, l2: Line, free: set<nat>)
    requires Helped(l, l1) && Helped(l1, l2)
    requires Framed(succ, pred, succ1, pred1, l, l1, free) && Framed(succ1, pred1, succ2, pred2, l1, l2, free)
    ensures Framed(succ, pred, succ2, pred2, l, l2, free)
  {
    forall y | 0 <= y < |succ|
      ensures FrameAt(succ, pred, succ2, pred2, l, l2, free, y)
    {
      assert FrameAt(succ, pred, succ1, pred1, l, l1, free, y) && FrameAt(succ1, pred1, succ2, pred2, l1, l2, free, y);
    }
  }

  lemma FramedMore(succ: seq<SWord>, pred: seq<PWord>, succ': seq<SWord>, pred': seq<PWord>, l: Line, l': Line,
      free: set<nat>, more: set<nat>)
    requires Framed(succ, pred, succ', pred', l, l', free) && free <= more
    ensures Framed(succ, pred, succ', pred', l, l', more)
  {
    forall y | 0 <= y < |succ|
      ensures FrameAt(succ, pred, succ', pred', l, l', more, y)
    {
      assert FrameAt(succ, pred, succ', pred', l, l', free, y);
    }
  }

  /** Completing a run of nodes. */
  lemma HelpFrame(succ: seq<SWord>, pred: seq<PWord>, l: Line, head: nat, k: nat)
    requires Spells(succ, pred, l, head) && On(l, k) && k + 1 < |l.nodes| && l.nodes[Next(l, k)] in l.dead
    ensures var a, run, b := l.nodes[k], RunBehind(l, k), l.nodes[RunEnd(l, k)];
      && Helped(l, CutRun(l, k)) && CutRun(l, k).dead < l.dead
      && Framed(succ, pred, HelpedSucc(succ, a, run, b), HelpedPred(pred, a, run, b), l, CutRun(l, k), {})
  {
    var a, run, b, l' := l.nodes[k], RunBehind(l, k), l.nodes[RunEnd(l, k)], CutRun(l, k);
    var succ', pred' := HelpedSucc(succ, a, run, b), HelpedPred(pred, a, run, b);
    RunFirst(succ, pred, l, head, k);
    RunNodes(l, head, |succ|, k);
    CutRunNodes(l, k);
    assert run[0] in l.dead && run[0] !in l'.dead;
    forall y | 0 <= y < |succ|
      ensures FrameAt(succ, pred, succ', pred', l, l', {}, y)
    {
      HelpFrameAt(succ, pred, l, l', k, a, run, b, y);
    }
  }

  lemma HelpFrameAt(succ: seq<SWord>, pred: seq<PWord>, l: Line, l': Line, k: nat, a: nat, run: seq<nat>, b: nat,
                    y: nat)
    requires |succ| == |pred| && y < |succ| && a !in run && b !in run && a in l.nodes && b in l.nodes
    requires a !in l.gone && b !in l.gone
    requires forall z :: z in run ==> z in l.dead && z !in l.gone && z in l.nodes
    requires forall z :: z in l'.gone <==> z in l.gone || z in run
    ensures FrameAt(succ, pred, HelpedSucc(succ, a, run, b), HelpedPred(pred, a, run, b), l, l', {}, y)
  {
    if y in run {
      assert Before(a, run, Place(run, y)) !in l.gone;
    }
  }

  /** The first node of a run is cut out with the rest of it. */
  lemma FirstIsCut(succ: seq<SWord>, pred: seq<PWord>, l: Line, head: nat, k: nat)
    requires Spells(succ, pred, l, head) && On(l, k) && k + 1 < |l.nodes| && l.nodes[Next(l, k)] in l.dead
    ensures l.nodes[Next(l, k)] in CutRun(l, k).gone && Next(l, k) < RunEnd(l, k)
  {
    RunFirst(succ, pred, l, head, k);
    CutRunNodes(l, k);
  }

  /** Helping changes no words outside of the line, and a node of the line that it cut out is cut off. */
  lemma FrameOutside(succ: seq<SWord>, pred: seq<PWord>, succ': seq<SWord>, pred': seq<PWord>, l: Line, l': Line,
                     x: nat)
    requires Framed(succ, pred, succ', pred', l, l', {}) && x < |succ|
    ensures forall y :: 0 <= y < |pred| && y !in l.nodes ==> pred'[y] == pred[y]
    ensures x in l.nodes && x in l'.gone && x !in l.gone ==> succ'[x] == SNIL
  {
    assert FrameAt(succ, pred, succ', pred', l, l', {}, x);
    forall y | 0 <= y < |pred| && y !in l.nodes
      ensures pred'[y] == pred[y]
    {
      assert FrameAt(succ, pred, succ', pred', l, l', {}, y);
    }
  }

  /** When nobody is at work on a list, helping finds nothing to do. */
  lemma CleanFramed(succ: seq<SWord>, pred: seq<PWord>, succ': seq<SWord>, pred': seq<PWord>, chain: seq<nat>,
                    head: nat, l': Line, free: set<nat>)
    requires Spelled(succ, pred, chain, head) && Spells(succ', pred', l', head) && Helped(Clean(chain), l')
    requires Framed(succ, pred, succ', pred', Clean(chain), l', free) && forall y :: y in free ==> y in chain
    ensures l'.dead == {} && l'.gone == map[]
    ensures Spelled(succ', pred', chain, head) && succ' == succ
    ensures forall y :: 0 <= y < |pred| && y !in free ==> pred'[y] == pred[y]
  {
    assert l'.gone == map[];
    forall y | 0 <= y < |pred| && y !in free
      ensures pred'[y] == pred[y]
    {
      assert FrameAt(succ, pred, succ', pred', Clean(chain), l', free, y);
    }
    forall y | 0 <= y < |pred|
      ensures Known(pred', chain, y)
    {
      assert Known(pred, chain, y);
    }
    CleanAgain(succ', pred', l', head);
    forall y | 0 <= y < |succ|
      ensures succ'[y] == succ[y]
    {
      assert FrameAt(succ, pred, succ', pred', Clean(chain), l', free, y);
      if y in chain {
        PlacesOf(chain, head, |succ|, y);
        SpelledAt(succ, pred, chain, head, Place(chain, y));
        SpelledAt(succ', pred', chain, head, Place(chain, y));
      }
    }
  }

  /** What follows a place of a list that nobody is at work on. */
  lemma CleanRun(chain: seq<nat>, i: nat)
    requires i + 1 < |chain|
    ensures RunEnd(Clean(chain), i) == i + 1 == Next(Clean(chain), i) && CutRun(Clean(chain), i) == Clean(chain)
  {}

  // ---------------------------------------------------------------- the nodes that stay

  /** `y` is linked and nobody is unlinking it. */
  predicate Lives(l: Line, y: nat) { y !in l.dead && y !in l.gone }

  /** The nodes of a sequence that live. */
  function Living(s: seq<nat>, l: Line): seq<nat> {
    if s == [] then [] else (if Lives(l, s[0]) then [s[0]] else []) + Living(s[1..], l)
  }

  lemma {:induction false} LivingConcat(s: seq<nat>, t: seq<nat>, l: Line)
    ensures Living(s + t, l) == Living(s, l) + Living(t, l)
  {
    if s == [] {
      assert s + t == t;
    } else {
      assert (s + t)[1..] == s[1..] + t;
      LivingConcat(s[1..], t, l);
    }
  }

  lemma {:induction false} LivingSame(s: seq<nat>, l: Line, l': Line)
    requires forall y :: y in s ==> (Lives(l, y) <==> Lives(l', y))
    ensures Living(s, l') == Living(s, l)
  {
    if s != [] {
      assert s[0] in s;
      LivingSame(s[1..], l, l');
    }
  }

  /** Helping changes nothing about the nodes that live. */
  lemma HelpedLiving(l: Line, l': Line)
    requires Helped(l, l')
    ensures Living(l'.nodes, l') == Living(l.nodes, l)
  {
    LivingSame(l.nodes, l, l');
  }

  /** The new node stands between its neighbours, and all three live. */
  lemma InsertedBetween(succ: seq<SWord>, pred: seq<PWord>, l: Line, head: nat, k: nat, x: nat, b: nat)
    requires Spells(succ, pred, l, head) && k + 1 < |l.nodes| && 0 < b && 0 < x < |succ| && pred[x] == PNIL
    requires succ[l.nodes[k]] == SWord(b, false, false)
    ensures On(l, k) && x !in l.nodes && b == l.nodes[Next(l, k)] && Lives(l, x) && Lives(l, b)
    ensures Spells(succ[x := SWord(b, false, false)][l.nodes[k] := SWord(x, false, false)],
                   pred[x := PWord(l.nodes[k], false)], InsertAt(l, k, x), head)
    ensures var l', n := InsertAt(l, k, x), Next(l, k);
      n + 1 < |l'.nodes| && l'.nodes[k + 1] == x && l'.nodes[n + 1] == b && Next(l', k + 1) == n + 1
  {
    SpellsInsert(succ, pred, l, head, k, x, b);
    assert Loose(succ, pred, l, x) && SuccOk(succ, pred, l, k);
    NextIsOn(l, head, |succ|, k);
    InsertedPlaces(l, k, x);
  }

  lemma InsertedPlaces(l: Line, k: nat, x: nat)
    requires k + 1 < |l.nodes|
    ensures var l', n := InsertAt(l, k, x), Next(l, k);
      n + 1 < |l'.nodes| && l'.nodes[k + 1] == x && l'.nodes[n + 1] == l.nodes[n] && Next(l', k + 1) == n + 1
  {
    InsertPlaces(l, k, x);
    InsertNextOfNew(l, InsertAt(l, k, x), k, x);
    assert InsertAt(l, k, x).nodes[Shifted(k, Next(l, k))] == l.nodes[Next(l, k)];
  }
}
