/** Finding the predecessor of a node: what each round of `pred_` does to its predecessor word, and why it ends. */
module ListRepair {
  import opened ListHelping
  import opened ListLine
  import opened ListModel

  /** `pred_` of `x` moves back from `y`, which is unlinked, or being unlinked right before `x`. */
  predicate Passed(succ: seq<SWord>, pred: seq<PWord>, x: nat, y: nat)
    requires y < |succ| && y < |pred|
  {
    pred[y].m && (succ[y].ptr == 0 || succ[y].ptr == x)
  }

  /**
   * Between rounds, the local copy `p` of the unmarked predecessor word of the node at place `i` is
   * that word, or the word has just moved back from it.
   */
  predicate Aims(succ: seq<SWord>, pred: seq<PWord>, l: Line, i: nat, p: PWord)
    requires i < |l.nodes| && l.nodes[i] < |pred| == |succ|
  {
    var w := pred[l.nodes[i]];
    && !p.m && !w.m && Among(l, 0, i, p.ptr) && Among(l, 0, i, w.ptr) && p.ptr < |succ|
    && (p == w || (Passed(succ, pred, l.nodes[i], p.ptr) && w.ptr == pred[p.ptr].ptr))
  }

  /**
   * How far `y` is from the predecessor of the node at place `i`. From nodes that were cut out the
   * way leads to ones that were cut out later, and so to the chain; along the chain it leads forward;
   * before a node that is being unlinked, that is completed first.
   */
  function Distance(succ: seq<SWord>, l: Line, i: nat, y: nat): nat
    requires i < |l.nodes| && y < |succ|
  {
    if y in l.gone then |l.nodes| + 1 + (if l.gone[y] < l.cuts then l.cuts - l.gone[y] else 0)
    else if succ[y].s && succ[y].ptr != l.nodes[i] then 0
    else if y in l.nodes && Place(l.nodes, y) < i then i - Place(l.nodes, y)
    else 0
  }

  /** The place of a node that is before place `i` somewhere is so itself: it is the first one. */
  lemma PlaceBound(l: Line, i: nat, y: nat)
    requires i <= |l.nodes| && Among(l, 0, i, y)
    ensures y in l.nodes && Place(l.nodes, y) < i
  {
    var j: nat :| j < i && l.nodes[j] == y;
    PlaceFirst(l.nodes, y);
    var front := l.nodes[..Place(l.nodes, y)];
    assert forall q :: 0 <= q < |front| ==> front[q] == l.nodes[q];
  }

  lemma DistanceOn(succ: seq<SWord>, l: Line, head: nat, i: nat, j: nat)
    requires Shape(l, head, |succ|) && j < i < |l.nodes| && On(l, j)
    ensures Distance(succ, l, i, l.nodes[j]) ==
      if succ[l.nodes[j]].s && succ[l.nodes[j]].ptr != l.nodes[i] then 0 else i - j
  {
    PlaceAt(l.nodes, head, |succ|, j);
  }

  /** The words of the node at place `j`, before `i`. */
  lemma WordsBefore(succ: seq<SWord>, pred: seq<PWord>, l: Line, head: nat, i: nat, j: nat)
    requires Spells(succ, pred, l, head) && j < i < |l.nodes|
    ensures 0 < l.nodes[j] < |succ| && SuccOk(succ, pred, l, j) && pred[l.nodes[j]].ptr != 0
    ensures pred[l.nodes[j]].m ==> 0 < j && PredOk(pred, l, j)
  {
    WordsOf(succ, pred, l, head, j);
  }

  /** Moving back from a node that was cut out, or that is being unlinked right before the node at place `i`. */
  lemma MovedBack(succ: seq<SWord>, pred: seq<PWord>, l: Line, head: nat, i: nat, j: nat)
    requires Spells(succ, pred, l, head) && j < i < |l.nodes| && On(l, i) && pred[l.nodes[j]].m
    requires On(l, j) ==> Next(l, j) == i
    ensures var t := pred[l.nodes[j]].ptr;
      Among(l, 0, i, t) && t < |succ| && Distance(succ, l, i, t) < Distance(succ, l, i, l.nodes[j])
  {
    WordsBefore(succ, pred, l, head, i, j);
    var t := pred[l.nodes[j]].ptr;
    var q: nat :| q < j && l.nodes[q] == t;
    if On(l, j) {
      BeforeMarked(succ, pred, l, head, i, j);
    } else if On(l, q) {
      DistanceOn(succ, l, head, i, q);
    }
  }

  lemma BeforeMarked(succ: seq<SWord>, pred: seq<PWord>, l: Line, head: nat, i: nat, j: nat)
    requires Spells(succ, pred, l, head) && 0 < j < i < |l.nodes| && On(l, i) && On(l, j) && Next(l, j) == i
    requires pred[l.nodes[j]].m && PredOk(pred, l, j)
    ensures pred[l.nodes[j]].ptr < |succ|
    ensures Distance(succ, l, i, pred[l.nodes[j]].ptr) == 0 && 0 < Distance(succ, l, i, l.nodes[j])
  {
    var q := Prev(l, j);
    NextOfPrev(l, j);
    assert SuccOk(succ, pred, l, q) && SuccOk(succ, pred, l, j);
    assert On(l, q);
    DistanceOn(succ, l, head, i, q);
    DistanceOn(succ, l, head, i, j);
    assert l.nodes[j] != l.nodes[i] by {
      if l.nodes[j] == l.nodes[i] {
        ChainPlace(l.nodes, head, |succ|, i, j);
      }
    }
  }

  /** Moving forward along the chain, or from a node that was cut out over the word that it kept. */
  lemma MovedForward(succ: seq<SWord>, pred: seq<PWord>, l: Line, head: nat, i: nat, j: nat)
    requires Spells(succ, pred, l, head) && j < i < |l.nodes| && On(l, i)
    requires var w := succ[l.nodes[j]]; w.ptr != 0 && w.ptr != l.nodes[i] && !w.s
    ensures var b := succ[l.nodes[j]].ptr;
      Among(l, 0, i, b) && b < |succ| && Distance(succ, l, i, b) < Distance(succ, l, i, l.nodes[j])
  {
    WordsBefore(succ, pred, l, head, i, j);
    NextCleared(l, j);
    var n := Next(l, j);
    if On(l, j) {
      assert n < i;
      NextIsOn(l, head, |succ|, j);
      DistanceOn(succ, l, head, i, j);
      DistanceOn(succ, l, head, i, n);
    } else {
      var q: nat :| j < q <= n && l.nodes[q] == succ[l.nodes[j]].ptr;
      assert q < i;
      if On(l, q) {
        DistanceOn(succ, l, head, i, q);
      }
    }
  }

  /** The round that ends it. */
  lemma Arrived(succ: seq<SWord>, pred: seq<PWord>, l: Line, head: nat, i: nat, j: nat)
    requires Spells(succ, pred, l, head) && j < i < |l.nodes| && On(l, i)
    requires succ[l.nodes[j]].ptr == l.nodes[i]
    ensures On(l, j) ==> Next(l, j) == i
    ensures !On(l, j) ==> pred[l.nodes[j]].m
  {
    WordsBefore(succ, pred, l, head, i, j);
    if On(l, j) {
      NextIsOn(l, head, |succ|, j);
      ChainPlace(l.nodes, head, |succ|, i, Next(l, j));
    } else {
      assert PredOk(pred, l, j);
    }
  }

  /** Helping ahead of what the unmarked word of the node at place `i` names leaves that word, or cuts the node out. */
  lemma AimsAhead(succ: seq<SWord>, pred: seq<PWord>, succ': seq<SWord>, pred': seq<PWord>, l: Line, l': Line,
                  head: nat, i: nat, p: PWord)
    requires Spells(succ, pred, l, head) && Spells(succ', pred', l', head) && i < |l.nodes| && On(l, i)
    requires Aims(succ, pred, l, i, p) && p == pred[l.nodes[i]] && p.ptr !in l'.gone
    requires Helped(l, l') && Framed(succ, pred, succ', pred', l, l', {})
    ensures if On(l', i) then Aims(succ', pred', l', i, p) else pred'[l.nodes[i]].m
  {
    assert FrameAt(succ, pred, succ', pred', l, l', {}, l.nodes[i]);
    var j: nat :| j < i && l.nodes[j] == p.ptr;
    assert l'.nodes[j] == p.ptr;
  }

  /** One predecessor word was stored. */
  lemma StoredFrame(succ: seq<SWord>, pred: seq<PWord>, l: Line, x: nat, w: PWord)
    requires |succ| == |pred| && x < |pred|
    ensures Helped(l, l) && Framed(succ, pred, succ, pred[x := w], l, l, {x})
  {}

  /** An unmarked word may name any earlier node. */
  lemma SpellsMove(succ: seq<SWord>, pred: seq<PWord>, l: Line, head: nat, i: nat, t: nat)
    requires Spells(succ, pred, l, head) && 0 < i < |l.nodes| && On(l, i) && !pred[l.nodes[i]].m && Among(l, 0, i, t)
    ensures Spells(succ, pred[l.nodes[i] := PWord(t, false)], l, head)
  {
    SpellsSetPred(succ, pred, l, head, i, PWord(t, false));
  }

  // ---------------------------------------------------------------- a node that is itself marked

  /**
   * Moving the marked word of the node at place `i` back over `p`, which has a marked word too. For a
   * node that was cut out that is harmless. One that is still in the chain no longer names its
   * predecessor afterwards, as the documented invariants demand of it.
   */
  lemma MovedBackMarked(succ: seq<SWord>, pred: seq<PWord>, l: Line, head: nat, i: nat, w: PWord)
    requires Spells(succ, pred, l, head) && 0 < i < |l.nodes| && w.m && pred[l.nodes[i]].m
    requires Among(l, 0, i, w.ptr) && (On(l, i) ==> w.ptr != l.nodes[Prev(l, i)])
    requires l.nodes[i] in l.gone ==> Later(l, w.ptr, l.nodes[i])
    ensures Spells(succ, pred[l.nodes[i] := w], l, head) <==> l.nodes[i] in l.gone
  {
    if l.nodes[i] in l.gone {
      assert PredOk(pred, l, i);
      SpellsSetPred(succ, pred, l, head, i, w);
    } else {
      assert !PredOk(pred[l.nodes[i] := w], l, i);
    }
  }

  /** From a marked word on, `pred_` only moves back, to nodes that were cut out later or are in the chain. */
  lemma StepBack(succ: seq<SWord>, pred: seq<PWord>, l: Line, head: nat, i: nat, j: nat)
    requires Spells(succ, pred, l, head) && j < i < |l.nodes| && Later(l, l.nodes[j], l.nodes[i]) && pred[l.nodes[j]].m
    ensures pred[l.nodes[j]].ptr < |succ| && Among(l, 0, j, pred[l.nodes[j]].ptr)
    ensures Later(l, pred[l.nodes[j]].ptr, l.nodes[i])
  {
    WordsBefore(succ, pred, l, head, i, j);
    if On(l, j) {
      assert Prev(l, j) == 0 || On(l, Prev(l, j));
    }
  }

  /** The unmarked node that a marked word leads back to is in the chain. */
  lemma UnmarkedIsOn(succ: seq<SWord>, pred: seq<PWord>, l: Line, head: nat, j: nat)
    requires Spells(succ, pred, l, head) && j + 1 < |l.nodes| && !pred[l.nodes[j]].m
    ensures On(l, j)
  {
    WordsOf(succ, pred, l, head, j);
  }

  /**
   * Between the rounds with a marked word: it has been moved, or not yet, and names place `m`; the
   * copy `p` is the same, or names place `j`, from which the word has just moved.
   */
  ghost predicate Retreats(succ: seq<SWord>, was: seq<PWord>, pred: seq<PWord>, l: Line, head: nat, i: nat,
      p: PWord, j: nat, m: nat, moved: bool)
  {
    && Spells(succ, was, l, head) && 0 < i < |l.nodes| && j < i && m < i && l.nodes[i] < |was|
    && l.nodes[j] < |was| && l.nodes[j] != l.nodes[i] && l.nodes[m] != l.nodes[i]
    && Later(l, l.nodes[j], l.nodes[i]) && Later(l, l.nodes[m], l.nodes[i])
    && p == PWord(l.nodes[j], true) && pred == was[l.nodes[i] := PWord(l.nodes[m], true)] && was[l.nodes[i]].m
    && (j == m || (was[p.ptr].m && was[p.ptr].ptr == l.nodes[m] != p.ptr))
    && if moved
       then
         && was[l.nodes[i]].ptr < |was| && was[was[l.nodes[i]].ptr].m
         && (On(l, i) ==> m < Prev(l, i))
       else j == m && pred == was && p == was[l.nodes[i]]
  }

  lemma RetreatStart(succ: seq<SWord>, pred: seq<PWord>, l: Line, head: nat, i: nat) returns (j: nat)
    requires Spells(succ, pred, l, head) && 0 < i < |l.nodes| && pred[l.nodes[i]].m
    ensures Retreats(succ, pred, pred, l, head, i, pred[l.nodes[i]], j, j, false)
  {
    assert PredOk(pred, l, i);
    var x := l.nodes[i];
    j := Place(l.nodes, pred[x].ptr);
    PlaceBound(l, i, pred[x].ptr);
    WordsOf(succ, pred, l, head, j);
    WordsOf(succ, pred, l, head, i);
    if On(l, i) {
      assert Prev(l, i) == 0 || On(l, Prev(l, i));
    }
  }

  /** The word moves back from the place that it names. */
  lemma RetreatFurther(succ: seq<SWord>, was: seq<PWord>, pred: seq<PWord>, l: Line, head: nat, i: nat, p: PWord,
                       j: nat, moved: bool)
    returns (m: nat)
    requires Retreats(succ, was, pred, l, head, i, p, j, j, moved) && was[p.ptr].m
    ensures was[p.ptr].ptr < |was| && m < j
    ensures Retreats(succ, was, pred[l.nodes[i] := PWord(was[p.ptr].ptr, true)], l, head, i, p, j, m, true)
  {
    StepBack(succ, was, l, head, i, j);
    WordsOf(succ, was, l, head, i);
    m := Place(l.nodes, was[p.ptr].ptr);
    PlaceBound(l, j, was[p.ptr].ptr);
    if On(l, i) && !moved {
      assert PredOk(was, l, i);
      PlacesMeet(l, head, |succ|, j, Prev(l, i));
    }
  }

  lemma RetreatEnd(succ: seq<SWord>, was: seq<PWord>, pred: seq<PWord>, l: Line, head: nat, i: nat, p: PWord, j: nat,
      m: nat, moved: bool)
    requires Retreats(succ, was, pred, l, head, i, p, j, m, moved) && !was[p.ptr].m
    ensures j == m && On(l, j) && was[l.nodes[i]].ptr < |was|
    ensures Spells(succ, pred, l, head) <==> l.nodes[i] in l.gone || !was[was[l.nodes[i]].ptr].m
  {
    UnmarkedIsOn(succ, was, l, head, j);
    if moved {
      assert Among(l, 0, i, l.nodes[m]);
      MovedBackMarked(succ, was, l, head, i, PWord(l.nodes[m], true));
    }
  }

  /** `a` is being unlinked, and names a node that has to be linked past it. */
  predicate Leaving(succ: seq<SWord>, a: nat)
    requires a < |succ|
  {
    succ[a].ptr != 0 && succ[a].d
  }

  /** Asking for the predecessor of `c` keeps the documented invariants. */
  predicate Aidable(pred: seq<PWord>, l: Line, c: nat) {
    c < |pred| && (!pred[c].m || c in l.gone || (pred[c].ptr < |pred| && !pred[pred[c].ptr].m))
  }

  /** The node that a successor word names is one of the line. */
  lemma NameOf(succ: seq<SWord>, pred: seq<PWord>, l: Line, head: nat, k: nat)
    requires Spells(succ, pred, l, head) && k + 1 < |l.nodes| && succ[l.nodes[k]].ptr != 0
    ensures succ[l.nodes[k]].ptr in l.nodes
  {
    assert SuccOk(succ, pred, l, k);
  }

  // ---------------------------------------------------------------- what lies between a node and the one found

  /** No node between the two places lives. */
  predicate NoneLive(l: Line, m: nat, i: nat)
    requires i <= |l.nodes|
  {
    forall q :: m < q < i ==> !Lives(l, l.nodes[q])
  }

  /** The predecessor word of the node at place `i` names place `m`, and no node between them lives. */
  predicate Tight(pred: seq<PWord>, l: Line, m: nat, i: nat) {
    m < i < |l.nodes| && l.nodes[i] < |pred| && pred[l.nodes[i]].ptr == l.nodes[m] && NoneLive(l, m, i)
  }

  /** The words of the nodes cut out since `l0` skip no node that lives, and name nodes that were in the chain then. */
  ghost predicate TightCuts(pred: seq<PWord>, l0: Line, l: Line) {
    forall i :: 0 < i < |l.nodes| && l.nodes[i] in l.gone && l.nodes[i] !in l0.gone ==>
      l.nodes[i] < |pred| && pred[l.nodes[i]].ptr !in l0.gone && exists m: nat :: Tight(pred, l, m, i)
  }

  /** The nodes of a run name one another, and the first one the node before the run. */
  lemma {:induction false} RunIsTight(l: Line, head: nat, size: nat, k: nat, y: nat) returns (m: nat, i: nat)
    requires Shape(l, head, size) && k + 1 < |l.nodes| && y in RunBehind(l, k)
    ensures k <= m < i < |l.nodes| && l.nodes[i] == y && Cleared(l, m, i)
    ensures l.nodes[m] == Before(l.nodes[k], RunBehind(l, k), Place(RunBehind(l, k), y))
    decreases |l.nodes| - k
  {
    var n := Next(l, k);
    if y == l.nodes[n] {
      NextCleared(l, k);
      m, i := k, n;
    } else {
      assert RunBehind(l, k)[1..] == RunBehind(l, n);
      m, i := RunIsTight(l, head, size, n, y);
      PlaceOfRest(l.nodes[k], RunBehind(l, k), y);
    }
  }

  /** Completing a run. */
  lemma HelpIsTight(succ: seq<SWord>, pred: seq<PWord>, l: Line, head: nat, k: nat)
    requires Spells(succ, pred, l, head) && On(l, k) && k + 1 < |l.nodes| && l.nodes[Next(l, k)] in l.dead
    ensures TightCuts(HelpedPred(pred, l.nodes[k], RunBehind(l, k), l.nodes[RunEnd(l, k)]), l, CutRun(l, k))
  {
    var a, run, b, l' := l.nodes[k], RunBehind(l, k), l.nodes[RunEnd(l, k)], CutRun(l, k);
    var pred' := HelpedPred(pred, a, run, b);
    RunFirst(succ, pred, l, head, k);
    RunNodes(l, head, |succ|, k);
    CutRunNodes(l, k);
    forall i | 0 < i < |l'.nodes| && l'.nodes[i] in l'.gone && l'.nodes[i] !in l.gone
      ensures l'.nodes[i] < |pred'| && pred'[l'.nodes[i]].ptr !in l.gone && exists m: nat :: Tight(pred', l', m, i)
    {
      var y := l.nodes[i];
      var m, q := RunIsTight(l, head, |succ|, k, y);
      ChainPlace(l.nodes, head, |succ|, q, i);
      assert Tight(pred', l', m, i);
      assert Before(a, run, Place(run, y)) in run || Before(a, run, Place(run, y)) == a;
    }
  }

  lemma TightFurther(pred: seq<PWord>, pred': seq<PWord>, l0: Line, l: Line, l': Line)
    requires Helped(l0, l) && Helped(l, l') && TightCuts(pred, l0, l) && TightCuts(pred', l, l')
    requires |pred'| == |pred| && forall y :: y in l.gone && y < |pred| ==> pred'[y] == pred[y]
    ensures TightCuts(pred', l0, l')
  {
    forall i | 0 < i < |l'.nodes| && l'.nodes[i] in l'.gone && l'.nodes[i] !in l0.gone
      ensures l'.nodes[i] < |pred'| && pred'[l'.nodes[i]].ptr !in l0.gone && exists m: nat :: Tight(pred', l', m, i)
    {
      if l'.nodes[i] in l.gone {
        var m: nat :| Tight(pred, l, m, i);
        assert Tight(pred', l', m, i);
      }
    }
  }

  /** From a marked node that was in the chain at `l0`, its word leads back over none that lives. */
  lemma StepBackTight(succ: seq<SWord>, pred: seq<PWord>, l0: Line, l: Line, head: nat, j: nat, m: nat)
    requires Spells(succ, pred, l, head) && Helped(l0, l) && TightCuts(pred, l0, l) && m < j < |l.nodes| - 1
    requires l.nodes[j] !in l0.gone && pred[l.nodes[j]].m && pred[l.nodes[j]].ptr == l.nodes[m]
    ensures NoneLive(l, m, j) && !Lives(l, l.nodes[j]) && l.nodes[m] !in l0.gone
  {
    assert PredOk(pred, l, j);
    if On(l, j) {
      PrevCleared(l, j);
      PlacesMeet(l, head, |succ|, m, Prev(l, j));
      assert Prev(l, j) == 0 || On(l, Prev(l, j));
    } else {
      var q: nat :| Tight(pred, l, q, j);
      PlacesMeet(l, head, |succ|, m, q);
    }
  }

  /** Storing the word of a node that was not cut out. */
  lemma TightElsewhere(pred: seq<PWord>, pred': seq<PWord>, l0: Line, l: Line, x: nat)
    requires TightCuts(pred, l0, l) && |pred'| == |pred|
    requires forall y :: 0 <= y < |pred| && (y != x || x in l.gone) ==> pred'[y] == pred[y]
    ensures TightCuts(pred', l0, l)
  {
    forall i | 0 < i < |l.nodes| && l.nodes[i] in l.gone && l.nodes[i] !in l0.gone
      ensures l.nodes[i] < |pred'| && pred'[l.nodes[i]].ptr !in l0.gone && exists m: nat :: Tight(pred', l, m, i)
    {
      var m: nat :| Tight(pred, l, m, i);
      assert Tight(pred', l, m, i);
    }
  }

  /** One more round of the search. */
  lemma SearchFurther(succ: seq<SWord>, pred: seq<PWord>, succ1: seq<SWord>, pred1: seq<PWord>,
      succ2: seq<SWord>, pred2: seq<PWord>, l: Line, l1: Line, l2: Line, x: nat)
    requires Helped(l, l1) && Helped(l1, l2) && x !in l1.gone && TightCuts(pred1, l, l1) && TightCuts(pred2, l1, l2)
    requires Framed(succ, pred, succ1, pred1, l, l1, {x}) && Framed(succ1, pred1, succ2, pred2, l1, l2, {x})
    ensures Helped(l, l2) && Framed(succ, pred, succ2, pred2, l, l2, {x}) && TightCuts(pred2, l, l2)
  {
    HelpedFurther(l, l1, l2);
    FramedFurther(succ, pred, succ1, pred1, succ2, pred2, l, l1, l2, {x});
    GoneKept(succ1, pred1, succ2, pred2, l1, l2, x);
    TightFurther(pred1, pred2, l, l1, l2);
  }

  /** The words of nodes that were cut out before are left alone. */
  lemma GoneKept(succ: seq<SWord>, pred: seq<PWord>, succ': seq<SWord>, pred': seq<PWord>, l: Line, l': Line, x: nat)
    requires Framed(succ, pred, succ', pred', l, l', {x}) && x !in l.gone
    ensures |pred'| == |pred| && forall y :: y in l.gone && y < |pred| ==> pred'[y] == pred[y]
  {
    forall y | y in l.gone && y < |pred|
      ensures pred'[y] == pred[y]
    {
      assert FrameAt(succ, pred, succ', pred', l, l', {x}, y);
    }
  }

  /** The head is never marked. */
  lemma MarkedIsInside(succ: seq<SWord>, pred: seq<PWord>, l: Line, head: nat, i: nat)
    requires Spells(succ, pred, l, head) && i < |l.nodes| && pred[l.nodes[i]].m
    ensures 0 < i < |l.nodes| - 1
  {
    WordsOf(succ, pred, l, head, i);
  }

  // ---------------------------------------------------------------- linking between the nodes found

  /** Helping gives no node its first words, and takes no node its last ones. */
  lemma StillUnlinked(succ: seq<SWord>, pred: seq<PWord>, succ': seq<SWord>, pred': seq<PWord>, l: Line, l': Line,
                      head: nat, free: set<nat>, x: nat)
    requires Spells(succ, pred, l, head) && Spells(succ', pred', l', head) && Helped(l, l') && x < |succ|
    requires Framed(succ, pred, succ', pred', l, l', free) && forall y :: y in free ==> y in l.nodes
    ensures pred'[x] == PNIL <==> pred[x] == PNIL
  {
    assert FrameAt(succ, pred, succ', pred', l, l', free, x);
    if x in l.nodes {
      WordsOf(succ, pred, l, head, Place(l.nodes, x));
      WordsOf(succ', pred', l', head, Place(l.nodes, x));
    }
  }

  /** The word of a node of the chain after everything that is being unlinked behind it was completed. */
  lemma WordBehindRun(succ: seq<SWord>, pred: seq<PWord>, succ': seq<SWord>, pred': seq<PWord>, l: Line, head: nat,
                      k: nat)
    requires Spells(succ, pred, l, head) && k + 1 < |l.nodes| && On(l, k) && Spells(succ', pred', CutRun(l, k), head)
    requires Framed(succ, pred, succ', pred', l, CutRun(l, k), {}) && Next(CutRun(l, k), k) == RunEnd(l, k)
    ensures On(CutRun(l, k), k) && l.nodes[k] < |succ|
    ensures succ'[l.nodes[k]] == SWord(l.nodes[RunEnd(l, k)], false, succ[l.nodes[k]].d)
  {
    var l', a := CutRun(l, k), l.nodes[k];
    RunNodes(l, head, |succ|, k);
    CutRunNodes(l, k);
    RunIsBehind(l, head, |succ|, k);
    assert SuccOk(succ', pred', l', k) && FrameAt(succ, pred, succ', pred', l, l', {}, a);
  }

  // ---------------------------------------------------------------- two lists that stopped threads leave

  /** A helper stopped between its last two exchanges: the head names node 2 already, which still names node 3. */
  lemma StoppedHelper()
    ensures Spells([SNIL, SWord(2, false, false), SWord(3, true, false), SWord(1, false, true)],
                   [PNIL, PWord(2, false), PWord(1, false), PWord(2, true)], Line([1, 2, 3, 1], {3}, map[], 0), 1)
  {
    var succ := [SNIL, SWord(2, false, false), SWord(3, true, false), SWord(1, false, true)];
    var pred := [PNIL, PWord(2, false), PWord(1, false), PWord(2, true)];
    var l := Line([1, 2, 3, 1], {3}, map[], 0);
    SmallLine(succ, pred, l);
  }

  /** The words of a list with two nodes that were not cut out. */
  lemma SmallLine(succ: seq<SWord>, pred: seq<PWord>, l: Line)
    requires |succ| == |pred| == 4 && l.nodes == [1, 2, 3, 1] && l.gone == map[] && 1 !in l.dead && 0 !in l.dead
    requires succ[0] == SNIL && pred[0] == PNIL && (forall y :: 1 <= y < 4 ==> pred[y].ptr != 0)
    requires succ[1].ptr == 2 && succ[2].ptr == 3 && succ[3].ptr == 1
    requires forall y :: 1 <= y < 4 ==> succ[y].s == (succ[y].ptr in l.dead) && (succ[y].d ==> pred[y].m)
    requires pred[2].ptr == 1 && pred[3].ptr in {1, 2} && pred[1].ptr in {1, 2, 3} && !pred[1].m
    requires (pred[2].m ==> 2 in l.dead) && (pred[3].m ==> 3 in l.dead && pred[3].ptr == 2)
    ensures Spells(succ, pred, l, 1)
  {
    forall i | 0 <= i < 3
      ensures SuccOk(succ, pred, l, i)
    {
      assert Next(l, i) == i + 1;
    }
    assert l.nodes[0] == 1 && l.nodes[1] == 2 && l.nodes[2] == 3;
    forall i | 0 < i < 4
      ensures PredOk(pred, l, i)
    {
      assert Prev(l, i) == i - 1;
      assert Among(l, 0, i, pred[l.nodes[i]].ptr);
    }
  }

  /**
   * Two threads stopped after marking two neighbours. `pred_` of the second one moves its marked word
   * back to the head, though node 2 still names it: that is no direct predecessor, against the
   * documented invariants.
   */
  lemma MarkedNeighbours()
    ensures var succ := [SNIL, SWord(2, true, false), SWord(3, true, true), SWord(1, false, true)];
      var pred, l := [PNIL, PWord(3, false), PWord(1, true), PWord(2, true)], Line([1, 2, 3, 1], {2, 3}, map[], 0);
      Spells(succ, pred, l, 1) && !Aidable(pred, l, 3) && !Spells(succ, pred[3 := PWord(1, true)], l, 1)
  {
    var succ := [SNIL, SWord(2, true, false), SWord(3, true, true), SWord(1, false, true)];
    var pred, l := [PNIL, PWord(3, false), PWord(1, true), PWord(2, true)], Line([1, 2, 3, 1], {2, 3}, map[], 0);
    SmallLine(succ, pred, l);
    assert Prev(l, 2) == 1 && l.nodes[1] == 2 && l.nodes[2] == 3;
    assert !PredOk(pred[3 := PWord(1, true)], l, 2);
  }
}
