/** What `unlink_` waits for after it has cut a node out: that no word names the node any more. */
module ListWaiting {
  import opened ListHelping
  import opened ListLine
  import opened ListModel

  /** No predecessor word of the chain before place `i` names `x`. */
  predicate Clear(pred: seq<PWord>, l: Line, x: nat, i: nat)
    requires i <= |l.nodes| && forall q :: 0 <= q < |l.nodes| ==> l.nodes[q] < |pred|
  {
    forall q: nat :: 0 < q < i && On(l, q) ==> pred[l.nodes[q]].ptr != x
  }

  /** A node outside of the chain names `x`: only the thread that works on that node can change this. */
  ghost predicate Held(succ: seq<SWord>, pred: seq<PWord>, l: Line, x: nat) {
    exists y: nat :: HeldBy(succ, pred, l, x, y)
  }

  /** Nobody but the caller has to do with `x`: it is not held, and the node behind it is not being unlinked. */
  ghost predicate Free(succ: seq<SWord>, pred: seq<PWord>, l: Line, x: nat)
    requires x < |succ|
  {
    !Held(succ, pred, l, x) && !succ[x].s
  }

  predicate HeldBy(succ: seq<SWord>, pred: seq<PWord>, l: Line, x: nat, y: nat) {
    y < |succ| && y < |pred| && (y !in l.nodes || y in l.gone) && (succ[y].ptr == x || pred[y].ptr == x)
  }

  /** The nodes cut out since `l` are cut off, and their words name nodes that were in the chain then. */
  ghost predicate Severed(succ: seq<SWord>, pred: seq<PWord>, l: Line, l': Line) {
    forall y {:trigger pred[y]} :: 0 <= y < |succ| && y < |pred| && y in l.nodes && y in l'.gone && y !in l.gone ==>
      succ[y] == SNIL && pred[y].ptr !in l.gone
  }

  predicate SameOutside(pred: seq<PWord>, pred': seq<PWord>, l: Line) {
    |pred'| == |pred| && forall y :: 0 <= y < |pred| && y !in l.nodes ==> pred'[y] == pred[y]
  }

  /** Words name earlier nodes, so none of a node up to place `n` names the one there. */
  lemma ClearUpTo(succ: seq<SWord>, pred: seq<PWord>, l: Line, head: nat, n: nat, i: nat)
    requires Spells(succ, pred, l, head) && n + 1 < |l.nodes| && l.nodes[n] in l.gone && i <= |l.nodes|
    requires forall q :: n < q < i ==> l.nodes[q] in l.gone
    ensures Clear(pred, l, l.nodes[n], i)
  {
    forall q: nat | 0 < q < i && On(l, q)
      ensures pred[l.nodes[q]].ptr != l.nodes[n]
    {
      assert PredOk(pred, l, q);
      var j: nat :| j < q && l.nodes[j] == pred[l.nodes[q]].ptr;
      assert q < n;
    }
  }

  /** The walk starts behind the place where the node was. */
  lemma ClearAtStart(succ: seq<SWord>, pred: seq<PWord>, l: Line, head: nat, k: nat, n: nat)
    requires Spells(succ, pred, l, head) && k < n < |l.nodes| - 1 && l.nodes[n] in l.gone && n < Next(l, k)
    ensures On(l, Next(l, k)) && Clear(pred, l, l.nodes[n], Next(l, k))
  {
    NextCleared(l, k);
    NextIsOn(l, head, |succ|, k);
    ClearUpTo(succ, pred, l, head, n, Next(l, k));
  }

  /** Repairing the word of the node at place `i` leaves the others clear. */
  lemma ClearKept(succ: seq<SWord>, pred: seq<PWord>, succ': seq<SWord>, pred': seq<PWord>, l: Line, l': Line,
                  head: nat, x: nat, i: nat)
    requires Spells(succ, pred, l, head) && Spells(succ', pred', l', head) && Helped(l, l') && 0 < i < |l.nodes|
    requires Framed(succ, pred, succ', pred', l, l', {l.nodes[i]}) && x in l.gone && Clear(pred, l, x, i)
    ensures Clear(pred', l', x, i)
    ensures pred'[l.nodes[i]].ptr != x ==> Clear(pred', l', x, i + 1)
  {
    forall q: nat | 0 < q < i && On(l', q)
      ensures pred'[l.nodes[q]].ptr != x
    {
      assert FrameAt(succ, pred, succ', pred', l, l', {l.nodes[i]}, l.nodes[q]);
      if l.nodes[q] == l.nodes[i] {
        ChainPlace(l.nodes, head, |succ|, q, i);
      }
      assert On(l, q);
    }
  }

  /** Repairing the word of a node of the chain changes nothing about who holds `x`. */
  lemma HeldKept(succ: seq<SWord>, pred: seq<PWord>, succ': seq<SWord>, pred': seq<PWord>, l: Line, l': Line, b: nat,
                 x: nat)
    requires Helped(l, l') && Framed(succ, pred, succ', pred', l, l', {b}) && x in l.gone && x != 0
    requires b in l.nodes && b !in l.gone && b < |pred'| && pred'[b].ptr != x
    ensures Held(succ', pred', l', x) <==> Held(succ, pred, l, x)
  {
    forall y: nat | y < |succ|
      ensures HeldBy(succ', pred', l', x, y) <==> HeldBy(succ, pred, l, x, y)
    {
      assert FrameAt(succ, pred, succ', pred', l, l', {b}, y);
    }
  }

  lemma SeveredFurther(succ: seq<SWord>, pred: seq<PWord>, succ': seq<SWord>, pred': seq<PWord>, l0: Line, l: Line,
                       l': Line,
      b: nat)
    requires Helped(l0, l) && Helped(l, l') && Framed(succ, pred, succ', pred', l, l', {b})
      && Severed(succ, pred, l0, l)
    requires b in l.nodes && b !in l.gone && b < |pred'| && pred'[b].ptr !in l.gone
    ensures Severed(succ', pred', l0, l')
  {
    forall y | 0 <= y < |succ'| && y < |pred'| && y in l0.nodes && y in l'.gone && y !in l0.gone
      ensures succ'[y] == SNIL && pred'[y].ptr !in l0.gone
    {
      assert FrameAt(succ, pred, succ', pred', l, l', {b}, y);
      assert y in l.gone ==> succ[y] == SNIL && pred[y].ptr !in l0.gone;
    }
  }

  /** What a repair at place `i` keeps, whether the node there stays in the chain or is cut out on the way. */
  lemma RepairKept(succ: seq<SWord>, pred: seq<PWord>, succ': seq<SWord>, pred': seq<PWord>, l0: Line, l: Line,
                   l': Line,
      head: nat, i: nat, x: nat)
    requires Spells(succ, pred, l, head) && Spells(succ', pred', l', head) && Helped(l0, l) && Helped(l, l')
    requires 0 < i < |l.nodes| && On(l, i) && Framed(succ, pred, succ', pred', l, l', {l.nodes[i]})
    requires x in l.gone && x in l.nodes && x != 0 && succ[x] == SNIL && Clear(pred, l, x, i)
      && Severed(succ, pred, l0, l)
    requires pred'[l.nodes[i]].ptr !in l'.gone
    ensures Helped(l0, l') && Severed(succ', pred', l0, l') && x < |succ'| && succ'[x] == SNIL
    ensures Held(succ', pred', l', x) <==> Held(succ, pred, l, x)
    ensures if On(l', i) then Clear(pred', l', x, i + 1) else succ'[l.nodes[i]] == SNIL && l'.dead < l.dead
    ensures SameOutside(pred, pred', l)
  {
    var b := l.nodes[i];
    WordsOf(succ, pred, l, head, Place(l.nodes, x));
    ClearKept(succ, pred, succ', pred', l, l', head, x, i);
    HeldKept(succ, pred, succ', pred', l, l', b, x);
    SeveredFurther(succ, pred, succ', pred', l0, l, l', b);
    assert FrameAt(succ, pred, succ', pred', l, l', {b}, x) && FrameAt(succ, pred, succ', pred', l, l', {b}, b);
    forall y | 0 <= y < |pred| && y !in l.nodes
      ensures pred'[y] == pred[y]
    {
      assert FrameAt(succ, pred, succ', pred', l, l', {b}, y);
    }
  }

  /** The way to the next place of the chain meets nodes that were cut out only. */
  lemma ClearToNext(pred: seq<PWord>, l: Line, head: nat, x: nat, i: nat)
    requires Shape(l, head, |pred|) && i + 1 < |l.nodes| && On(l, i) && Clear(pred, l, x, i + 1)
    ensures Clear(pred, l, x, Next(l, i)) && On(l, Next(l, i))
  {
    NextCleared(l, i);
    NextIsOn(l, head, |pred|, i);
  }

  /** When the chain is clear of `x`, words that name it are held outside of the chain. */
  lemma NamedIsHeld(succ: seq<SWord>, pred: seq<PWord>, l: Line, head: nat, x: nat, y: nat)
    requires Spells(succ, pred, l, head) && x in l.gone && Clear(pred, l, x, |l.nodes|) && y < |succ|
    requires succ[y].ptr == x || pred[y].ptr == x
    ensures HeldBy(succ, pred, l, x, y)
  {
    if y in l.nodes && y !in l.gone {
      OnNamesOthers(succ, pred, l, head, x, y);
    }
  }

  lemma OnNamesOthers(succ: seq<SWord>, pred: seq<PWord>, l: Line, head: nat, x: nat, y: nat)
    requires Spells(succ, pred, l, head) && x in l.gone && Clear(pred, l, x, |l.nodes|) && y in l.nodes && y !in l.gone
    ensures y < |succ| && succ[y].ptr != x && pred[y].ptr != x
  {
    WordsOf(succ, pred, l, head, Place(l.nodes, y));
    NextIsOn(l, head, |succ|, Place(l.nodes, y));
    assert On(l, PlaceBefore(l.nodes, y));
  }

  /**
   * Cutting out `x`, the node behind place `k`: afterwards it is held by those who held it before, and
   * by the node behind it if that was being unlinked.
   */
  lemma HeldByCut(succ: seq<SWord>, pred: seq<PWord>, l: Line, head: nat, k: nat, x: nat)
    requires Spells(succ, pred, l, head) && k + 1 < |l.nodes| && succ[l.nodes[k]] == SWord(x, false, false) && x != head
    requires 0 < x < |succ|
    ensures var marked, l1 := succ[l.nodes[k] := SWord(x, true, false)], l.(dead := l.dead + {x});
      var run, b := RunBehind(l1, k), l.nodes[RunEnd(l1, k)];
      Held(HelpedSucc(marked, l.nodes[k], run, b), HelpedPred(pred, l.nodes[k], run, b), CutRun(l1, k), x)
      <==> Held(succ, pred, l, x) || succ[x].s
  {
    var a := l.nodes[k];
    var marked, l1 := succ[a := SWord(x, true, false)], l.(dead := l.dead + {x});
    SpellsMark(succ, pred, l, head, k, x);
    SameNeighbours(l, l1, k);
    var run, b, l' := RunBehind(l1, k), l.nodes[RunEnd(l1, k)], CutRun(l1, k);
    RunFirst(marked, pred, l1, head, k);
    RunNodes(l1, head, |succ|, k);
    CutRunNodes(l1, k);
    RunIs(marked, pred, l1, head, k);
    assert RunOk(marked, pred, a, run, b, 0);
    HeldByRun(succ, marked, pred, l, l', a, run, b);
  }

  /** S-marking `x`, the node behind place `k`, and completing what is being unlinked from there on. */
  lemma MarkedAndCut(succ: seq<SWord>, pred: seq<PWord>, l: Line, head: nat, k: nat, x: nat) returns (l1: Line)
    requires Spells(succ, pred, l, head) && k + 1 < |l.nodes| && succ[l.nodes[k]] == SWord(x, false, false) && x != head
    requires 0 < x < |succ|
    ensures l1 == l.(dead := l.dead + {x}) && Spells(succ[l.nodes[k] := SWord(x, true, false)], pred, l1, head)
    ensures On(l1, k) && l1.nodes[Next(l1, k)] == x && Next(l1, k) == Next(l, k) < |l.nodes| - 1 && Lives(l, x)
    ensures x in CutRun(l1, k).gone && Next(l1, k) < RunEnd(l1, k)
    ensures Held(HelpedSucc(succ[l.nodes[k] := SWord(x, true, false)], l.nodes[k], RunBehind(l1, k),
                            l.nodes[RunEnd(l1, k)]),
                 HelpedPred(pred, l.nodes[k], RunBehind(l1, k), l.nodes[RunEnd(l1, k)]), CutRun(l1, k), x)
            <==> !Free(succ, pred, l, x)
  {
    HeldByCut(succ, pred, l, head, k, x);
    SpellsMark(succ, pred, l, head, k, x);
    l1 := l.(dead := l.dead + {x});
    SameNeighbours(l, l1, k);
    FirstIsCut(succ[l.nodes[k] := SWord(x, true, false)], pred, l1, head, k);
  }

  lemma HeldByRun(succ: seq<SWord>, marked: seq<SWord>, pred: seq<PWord>, l: Line, l': Line, a: nat, run: seq<nat>,
                  b: nat)
    requires |succ| == |marked| == |pred| && a < |succ| && run != [] && marked == succ[a := SWord(run[0], true, false)]
    requires a in l.nodes && b in l.nodes && a !in l.gone && b !in l.gone && a !in run && b !in run && run[0] != 0
    requires l'.nodes == l.nodes && forall z :: z in run ==> z in l.nodes && z !in l.gone && z < |succ|
    requires forall z :: z in l'.gone <==> z in l.gone || z in run
    requires forall i, j :: 0 <= i < j < |run| ==> run[i] != run[j]
    ensures Held(HelpedSucc(marked, a, run, b), HelpedPred(pred, a, run, b), l', run[0])
            <==> Held(succ, pred, l, run[0]) || 1 < |run|
  {
    var succ', pred' := HelpedSucc(marked, a, run, b), HelpedPred(pred, a, run, b);
    if |run| > 1 {
      assert run[1] in run;
      SecondHolds(succ', pred', l', run, a, b, pred);
    }
    forall y: nat | y < |succ|
      ensures HeldBy(succ, pred, l, run[0], y) ==> HeldBy(succ', pred', l', run[0], y)
      ensures HeldBy(succ', pred', l', run[0], y) ==> HeldBy(succ, pred, l, run[0], y) || 1 < |run|
    {}
  }

  lemma SecondHolds(succ': seq<SWord>, pred': seq<PWord>, l': Line, run: seq<nat>, a: nat, b: nat, pred: seq<PWord>)
    requires |run| > 1 && run[1] < |pred| == |succ'| && run[1] in l'.gone && run[0] != run[1]
    requires pred' == HelpedPred(pred, a, run, b)
    ensures Held(succ', pred', l', run[0])
  {
    assert Place(run, run[1]) == 1;
    assert HeldBy(succ', pred', l', run[0], run[1]);
  }

  lemma HeadIsLast(l: Line, head: nat, size: nat, i: nat)
    requires Shape(l, head, size) && 0 < i < |l.nodes| && l.nodes[i] == head
    ensures i == |l.nodes| - 1 && On(l, i)
  {
    ChainPlace(l.nodes, head, size, 0, i);
  }

  // ---------------------------------------------------------------- when nobody else is at work

  lemma CleanPrevious(l: Line, j: nat, i: nat)
    requires l.gone == map[] && j + 1 < |l.nodes| && Next(l, j) == i
    ensures i == j + 1
  {}

  lemma UnlinkedBySucc(succ: seq<SWord>, pred: seq<PWord>, chain: seq<nat>, head: nat, x: nat)
    requires Spelled(succ, pred, chain, head) && x < |succ|
    ensures x in chain <==> succ[x].ptr != 0
  {
    LinkedByPred(succ, pred, chain, head, x);
    if x in chain {
      PlacesOf(chain, head, |succ|, x);
      SpelledAt(succ, pred, chain, head, Place(chain, x));
      SpelledAt(succ, pred, chain, head, Place(chain, x) + 1);
    }
  }

  /** After `link_` the words spell the longer chain. */
  lemma CleanLinked(succ: seq<SWord>, pred: seq<PWord>, succ': seq<SWord>, pred': seq<PWord>, chain: seq<nat>,
                    head: nat, l': Line, i: nat, x: nat, b: nat)
    requires Spelled(succ, pred, chain, head) && i + 1 < |chain| && 0 < x < |succ| && 0 < b && pred[x] == PNIL
    requires succ[chain[i]] == SWord(b, false, false) && b in chain
    requires Spells(succ', pred', l', head) && Helped(InsertAt(Clean(chain), i, x), l')
    requires Framed(succ[x := SWord(b, false, false)][chain[i] := SWord(x, false, false)],
                    pred[x := PWord(chain[i], false)], succ', pred', InsertAt(Clean(chain), i, x), l', {b})
    ensures l'.nodes == Insert(chain, i + 1, x) && Spelled(succ', pred', l'.nodes, head)
    ensures succ' == succ[x := SWord(b, false, false)][chain[i] := SWord(x, false, false)]
  {
    var succ1 := succ[x := SWord(b, false, false)][chain[i] := SWord(x, false, false)];
    var pred1, chain' := pred[x := PWord(chain[i], false)], Insert(chain, i + 1, x);
    SpellsInsert(succ, pred, Clean(chain), head, i, x, b);
    InsertContents(chain, i + 1, x);
    assert InsertAt(Clean(chain), i, x) == Clean(chain');
    forall y | 0 <= y < |pred|
      ensures Known(pred1, chain', y)
    {
      assert Known(pred, chain, y);
    }
    assert Spelled(succ1, pred1, chain', head);
    CleanFramed(succ1, pred1, succ', pred', chain', head, l', {b});
  }

  lemma CleanIsFree(succ: seq<SWord>, pred: seq<PWord>, chain: seq<nat>, head: nat, x: nat)
    requires Spelled(succ, pred, chain, head) && x in chain
    ensures x < |succ| && Free(succ, pred, Clean(chain), x)
  {
    PlacesOf(chain, head, |succ|, x);
    SpelledAt(succ, pred, chain, head, Place(chain, x));
    forall y: nat | y < |succ|
      ensures !HeldBy(succ, pred, Clean(chain), x, y)
    {
      LinkedByPred(succ, pred, chain, head, y);
    }
  }

  /** The place of the node that names `x`, which nobody else has to do with. */
  lemma NextPlace(succ: seq<SWord>, pred: seq<PWord>, chain: seq<nat>, head: nat, a: nat, x: nat) returns (k: nat)
    requires Spelled(succ, pred, chain, head) && a < |succ| && succ[a] == SWord(x, false, false) && x != head && 0 < x
    ensures x in chain && x < |succ| && k + 1 < |chain| && chain[k] == a
      && Next(Clean(chain), k) == k + 1 == Place(chain, x)
    ensures Free(succ, pred, Clean(chain), x)
  {
    NeighbourPlace(succ, pred, chain, head, a, x);
    CleanIsFree(succ, pred, chain, head, x);
    k := Place(chain, x) - 1;
    SpelledAt(succ, pred, chain, head, k);
  }

  /** After `unlink_` the words spell the shorter chain. */
  lemma CleanUnlinked(pred: seq<PWord>, succ': seq<SWord>, pred': seq<PWord>, chain: seq<nat>, head: nat, l': Line,
                      x: nat)
    requires Spells(succ', pred', l', head) && Chain(chain, head, |succ'|) && x in chain && x != head
    requires l'.nodes == Remove(chain, Place(chain, x)) && l'.dead == {} && x !in l'.gone && pred'[x] == PNIL
    requires forall y :: y != x ==> (Lives(l', y) <==> Lives(Clean(chain), y))
    requires SameOutside(pred, pred', Clean(chain))
    requires forall y {:trigger Known(pred, chain, y)} :: 0 <= y < |pred| ==> Known(pred, chain, y)
    ensures Spelled(succ', pred', l'.nodes, head) && x !in l'.nodes
  {
    PlacesOf(chain, head, |succ'|, x);
    RemoveChain(chain, head, |succ'|, Place(chain, x));
    RemoveContents(chain, Place(chain, x));
    forall y: nat
      ensures y !in l'.gone
    {
      assert y != x ==> (Lives(l', y) <==> Lives(Clean(chain), y));
    }
    assert l'.gone == map[];
    forall y | 0 <= y < |pred'|
      ensures Known(pred', l'.nodes, y)
    {
      assert Known(pred, chain, y);
    }
    CleanAgain(succ', pred', l', head);
  }

  /** Which nodes live does not change while `x` is waited for and forgotten, but for `x`. */
  lemma OthersLive(l: Line, l1: Line, l2: Line, x: nat, n: nat)
    requires Helped(l1, l2) && n < |l1.nodes| && l1.nodes[n] == x && l1.dead <= l.dead
    requires forall y :: y != x ==> (Lives(l1, y) <==> Lives(l, y))
    ensures forall y :: y != x ==> (Lives(l2, y) <==> Lives(l, y))
    ensures forall y :: y != x ==> (Lives(ForgetAt(l2, n), y) <==> Lives(l, y))
    ensures l2.dead <= l.dead && l2.nodes == l1.nodes
  {
    forall y | y != x
      ensures Lives(ForgetAt(l2, n), y) <==> Lives(l, y)
    {
      assert Lives(l1, y) <==> Lives(l, y);
    }
  }
}
