/**
 * The list in every state that its operations pass through, those in which other threads stopped
 * halfway included: which nodes are linked, which are being unlinked, which have been cut out, and
 * what the link words of each say.
 */
module ListLine {
  import opened ListModel

  /**
   * The nodes of a list in order, from head to head. Those in `dead` are S-marked by their
   * predecessor. Those in `gone` have been cut out of the chain, but words may still name them;
   * each keeps its place, and the number of its cut.
   */
  datatype Line = Line(nodes: seq<nat>, dead: set<nat>, gone: map<nat, nat>, cuts: nat)

  predicate Shape(l: Line, head: nat, size: nat) {
    && Chain(l.nodes, head, size) && head !in l.dead && head !in l.gone
    && (forall y :: y in l.gone ==> y !in l.dead && l.gone[y] < l.cuts)
  }

  /** Place `i` holds a node of the chain. */
  predicate On(l: Line, i: int) {
    0 <= i < |l.nodes| && l.nodes[i] !in l.gone
  }

  /** The next place of the chain. */
  function Next(l: Line, i: nat): (n: nat)
    requires i + 1 < |l.nodes|
    ensures i < n < |l.nodes|
    ensures n == |l.nodes| - 1 || On(l, n)
    decreases |l.nodes| - i
  {
    if i + 2 < |l.nodes| && l.nodes[i + 1] in l.gone then Next(l, i + 1) else i + 1
  }

  /** The previous place of the chain. */
  function Prev(l: Line, i: nat): (n: nat)
    requires 0 < i < |l.nodes|
    ensures n < i
    ensures n == 0 || On(l, n)
  {
    if 1 < i && l.nodes[i - 1] in l.gone then Prev(l, i - 1) else i - 1
  }

  /** Between neighbours everything was cut out. */
  predicate Cleared(l: Line, i: nat, n: nat)
    requires n <= |l.nodes|
  {
    forall k :: i < k < n ==> l.nodes[k] in l.gone
  }

  lemma {:induction false} NextCleared(l: Line, i: nat)
    requires i + 1 < |l.nodes|
    ensures Cleared(l, i, Next(l, i))
    decreases |l.nodes| - i
  {
    if i + 2 < |l.nodes| && l.nodes[i + 1] in l.gone {
      NextCleared(l, i + 1);
    }
  }

  lemma {:induction false} PrevCleared(l: Line, i: nat)
    requires 0 < i < |l.nodes|
    ensures Cleared(l, Prev(l, i), i)
  {
    if 1 < i && l.nodes[i - 1] in l.gone {
      PrevCleared(l, i - 1);
    }
  }

  lemma NextIs(l: Line, i: nat, n: nat)
    requires i < n < |l.nodes| && (n == |l.nodes| - 1 || On(l, n)) && Cleared(l, i, n)
    ensures Next(l, i) == n
  {
    NextCleared(l, i);
  }

  lemma PrevIs(l: Line, i: nat, n: nat)
    requires n < i < |l.nodes| && (n == 0 || On(l, n)) && Cleared(l, n, i)
    ensures Prev(l, i) == n
  {
    PrevCleared(l, i);
  }

  lemma PrevOfNext(l: Line, i: nat)
    requires i + 1 < |l.nodes| && On(l, i)
    ensures Prev(l, Next(l, i)) == i
  {
    NextCleared(l, i);
    PrevIs(l, Next(l, i), i);
  }

  lemma NextOfPrev(l: Line, i: nat)
    requires 0 < i && On(l, i)
    ensures Next(l, Prev(l, i)) == i
  {
    PrevCleared(l, i);
    NextIs(l, Prev(l, i), i);
  }

  lemma NextIsOn(l: Line, head: nat, size: nat, i: nat)
    requires Shape(l, head, size) && i + 1 < |l.nodes|
    ensures On(l, Next(l, i)) && (0 < i ==> l.nodes[Next(l, i)] != l.nodes[i])
  {
    if 0 < i && l.nodes[Next(l, i)] == l.nodes[i] {
      ChainPlace(l.nodes, head, size, i, Next(l, i));
    }
  }

  // ---------------------------------------------------------------- words

  /**
   * The successor word of place `i`. A node of the chain names the next one, S-marked exactly when
   * that is being unlinked, and gets its D mark only after its predecessor word was marked. A node
   * that was cut out has nil, or still the word that its predecessor took over.
   */
  predicate SuccOk(succ: seq<SWord>, pred: seq<PWord>, l: Line, i: nat)
    requires i + 1 < |l.nodes| && l.nodes[i] < |succ| && l.nodes[i] < |pred|
  {
    if l.nodes[i] in l.gone then GoneSucc(succ, l, i) else OnSucc(succ, pred, l, i)
  }

  predicate OnSucc(succ: seq<SWord>, pred: seq<PWord>, l: Line, i: nat)
    requires i + 1 < |l.nodes| && l.nodes[i] < |succ| && l.nodes[i] < |pred|
  {
    var x := l.nodes[i];
    && succ[x].ptr == l.nodes[Next(l, i)] && succ[x].s == (succ[x].ptr in l.dead) && (succ[x].d ==> pred[x].m)
  }

  predicate GoneSucc(succ: seq<SWord>, l: Line, i: nat)
    requires i + 1 < |l.nodes| && l.nodes[i] < |succ|
  {
    var x := l.nodes[i];
    succ[x] == SNIL || (!succ[x].s && succ[x].d && LeftBehind(l, i, succ[x].ptr))
  }

  /** `b` was next to the node cut out at place `i`, and has been cut out later or not at all. */
  predicate LeftBehind(l: Line, i: nat, b: nat)
    requires i + 1 < |l.nodes|
  {
    Among(l, i + 1, Next(l, i) + 1, b) && Later(l, b, l.nodes[i])
  }

  /** A place from `lo` up to `hi` holds `y`. */
  predicate Among(l: Line, lo: nat, hi: nat, y: nat)
    requires hi <= |l.nodes|
  {
    exists j: nat :: lo <= j < hi && l.nodes[j] == y
  }

  /** `y` was cut out later than `x`, or not at all. */
  predicate Later(l: Line, y: nat, x: nat) {
    y in l.gone && x in l.gone ==> l.gone[x] < l.gone[y]
  }

  /**
   * The predecessor word of place `i` names an earlier node, whatever became of that. A node of the
   * chain whose word is marked is being unlinked, and names its direct predecessor; a node that was
   * cut out has a marked word, which names one that was cut out later or not at all.
   */
  predicate PredOk(pred: seq<PWord>, l: Line, i: nat)
    requires 0 < i < |l.nodes| && l.nodes[i] < |pred|
  {
    && Among(l, 0, i, pred[l.nodes[i]].ptr)
    && if l.nodes[i] in l.gone then GonePred(pred, l, i) else OnPred(pred, l, i)
  }

  predicate OnPred(pred: seq<PWord>, l: Line, i: nat)
    requires 0 < i < |l.nodes| && l.nodes[i] < |pred|
  {
    var x := l.nodes[i];
    pred[x].m ==> x in l.dead && pred[x].ptr == l.nodes[Prev(l, i)]
  }

  predicate GonePred(pred: seq<PWord>, l: Line, i: nat)
    requires 0 < i < |l.nodes| && l.nodes[i] < |pred|
  {
    var x := l.nodes[i];
    pred[x].m && Later(l, pred[x].ptr, x)
  }

  /** A node without a predecessor word has no words at all, and is no node of the line. */
  predicate Loose(succ: seq<SWord>, pred: seq<PWord>, l: Line, y: nat)
    requires y < |succ| && y < |pred|
  {
    pred[y].ptr == 0 ==> succ[y] == SNIL && pred[y] == PNIL && y !in l.dead && y !in l.gone
  }

  /**
   * Memory spells the line. Nodes outside of it have no words, or those that a linker gave them
   * which has not reached them from the list yet.
   */
  predicate Spells(succ: seq<SWord>, pred: seq<PWord>, l: Line, head: nat) {
    && |succ| == |pred| && Shape(l, head, |succ|)
    && (forall i :: 0 <= i < |l.nodes| - 1 ==> SuccOk(succ, pred, l, i))
    && (forall i :: 0 < i < |l.nodes| ==> PredOk(pred, l, i))
    && (forall y :: 0 <= y < |succ| ==> Loose(succ, pred, l, y))
  }

  /** The place from which the successor word of a node is read, and the one for its predecessor word. */
  lemma WordsOf(succ: seq<SWord>, pred: seq<PWord>, l: Line, head: nat, i: nat)
    requires Spells(succ, pred, l, head) && i < |l.nodes|
    ensures var x := l.nodes[i];
      && 0 < x < |succ| && Place(l.nodes, x) < |l.nodes| - 1 && 0 < PlaceBefore(l.nodes, x)
      && l.nodes[Place(l.nodes, x)] == l.nodes[PlaceBefore(l.nodes, x)] == x
      && (i < |l.nodes| - 1 ==> Place(l.nodes, x) == i) && (0 < i ==> PlaceBefore(l.nodes, x) == i)
      && SuccOk(succ, pred, l, Place(l.nodes, x)) && PredOk(pred, l, PlaceBefore(l.nodes, x))
      && 0 < pred[x].ptr < |succ| && (x == head ==> !pred[x].m)
  {
    PlacesOf(l.nodes, head, |succ|, l.nodes[i]);
    PlaceAt(l.nodes, head, |succ|, i);
  }

  // ---------------------------------------------------------------- storing one word

  /** A predecessor word may be moved to any earlier node, its mark kept, as long as it says nothing wrong. */
  lemma SpellsSetPred(succ: seq<SWord>, pred: seq<PWord>, l: Line, head: nat, i: nat, w: PWord)
    requires Spells(succ, pred, l, head) && 0 < i < |l.nodes| && w.m == pred[l.nodes[i]].m
    requires PredOk(pred[l.nodes[i] := w], l, i)
    ensures Spells(succ, pred[l.nodes[i] := w], l, head)
  {
    var pred' := pred[l.nodes[i] := w];
    forall q | 0 <= q < |l.nodes| - 1
      ensures SuccOk(succ, pred', l, q)
    {
      assert SuccOk(succ, pred, l, q);
    }
    forall q | 0 < q < |l.nodes|
      ensures PredOk(pred', l, q)
    {
      assert PredOk(pred, l, q);
      if l.nodes[q] == l.nodes[i] {
        ChainPlace(l.nodes, head, |pred|, i, q);
      }
    }
    forall y | 0 <= y < |succ|
      ensures Loose(succ, pred', l, y)
    {
      assert Loose(succ, pred, l, y);
    }
  }

  /** Neighbours depend on the nodes and on those cut out. */
  lemma SameNeighbours(l: Line, l': Line, q: nat)
    requires l.nodes == l'.nodes && q < |l.nodes| && forall y :: y in l.gone <==> y in l'.gone
    ensures q + 1 < |l.nodes| ==> Next(l', q) == Next(l, q)
    ensures 0 < q ==> Prev(l', q) == Prev(l, q)
  {
    if q + 1 < |l.nodes| {
      NextCleared(l, q);
      NextIs(l', q, Next(l, q));
    }
    if 0 < q {
      PrevCleared(l, q);
      PrevIs(l', q, Prev(l, q));
    }
  }

  /** Only the place before names a node of the chain as its next. */
  lemma OneBefore(l: Line, head: nat, size: nat, i: nat, q: nat)
    requires Shape(l, head, size) && i + 1 < |l.nodes| && q + 1 < |l.nodes| && On(l, i) && On(l, q)
    requires l.nodes[Next(l, i)] == l.nodes[Next(l, q)]
    ensures q == i
  {
    ChainPlace(l.nodes, head, size, Next(l, i), Next(l, q));
    PrevOfNext(l, i);
    PrevOfNext(l, q);
  }

  /** S-marking: the node behind place `k` is being unlinked from now on. */
  lemma SpellsMark(succ: seq<SWord>, pred: seq<PWord>, l: Line, head: nat, k: nat, x: nat)
    requires Spells(succ, pred, l, head) && k + 1 < |l.nodes| && succ[l.nodes[k]] == SWord(x, false, false)
    requires x != head && 0 < x
    ensures On(l, k) && On(l, Next(l, k)) && l.nodes[Next(l, k)] == x && x !in l.dead && Next(l, k) < |l.nodes| - 1
    ensures Spells(succ[l.nodes[k] := SWord(x, true, false)], pred, l.(dead := l.dead + {x}), head)
  {
    var succ', l' := succ[l.nodes[k] := SWord(x, true, false)], l.(dead := l.dead + {x});
    assert SuccOk(succ, pred, l, k);
    assert On(l, k);
    forall q | 0 <= q < |l.nodes| - 1
      ensures SuccOk(succ', pred, l', q)
    {
      MarkSuccAt(succ, pred, l, head, k, x, q);
    }
    forall q | 0 < q < |l.nodes|
      ensures PredOk(pred, l', q)
    {
      assert PredOk(pred, l, q);
      SameNeighbours(l, l', q);
    }
    forall y | 0 <= y < |succ|
      ensures Loose(succ', pred, l', y)
    {
      MarkLoose(succ, pred, l, head, k, x, y);
    }
  }

  lemma MarkLoose(succ: seq<SWord>, pred: seq<PWord>, l: Line, head: nat, k: nat, x: nat, y: nat)
    requires Spells(succ, pred, l, head) && k + 1 < |l.nodes| && x == l.nodes[Next(l, k)] && y < |succ|
    ensures l.nodes[k] < |succ| && x < |succ|
    ensures Loose(succ[l.nodes[k] := SWord(x, true, false)], pred, l.(dead := l.dead + {x}), y)
  {
    WordsOf(succ, pred, l, head, k);
    WordsOf(succ, pred, l, head, Next(l, k));
    assert Loose(succ, pred, l, y);
  }

  lemma MarkSuccAt(succ: seq<SWord>, pred: seq<PWord>, l: Line, head: nat, k: nat, x: nat, q: nat)
    requires |succ| == |pred| && Shape(l, head, |succ|) && k + 1 < |l.nodes| && q + 1 < |l.nodes|
    requires On(l, k) && succ[l.nodes[k]] == SWord(x, false, false) && l.nodes[Next(l, k)] == x
    requires SuccOk(succ, pred, l, q)
    ensures SuccOk(succ[l.nodes[k] := SWord(x, true, false)], pred, l.(dead := l.dead + {x}), q)
  {
    SameNeighbours(l, l.(dead := l.dead + {x}), q);
    if q != k {
      assert l.nodes[q] != l.nodes[k];
      if On(l, q) && succ[l.nodes[q]].ptr == x {
        OneBefore(l, head, |succ|, k, q);
      }
    }
  }

  // ---------------------------------------------------------------- cutting a node out

  /** The line after the node at place `n` was cut out. */
  function CutAt(l: Line, n: nat): Line
    requires n < |l.nodes|
  {
    l.(dead := l.dead - {l.nodes[n]}, gone := l.gone[l.nodes[n] := l.cuts], cuts := l.cuts + 1)
  }

  lemma CutShape(l: Line, head: nat, size: nat, n: nat)
    requires Shape(l, head, size) && 0 < n < |l.nodes| - 1
    ensures Shape(CutAt(l, n), head, size)
  {}

  lemma CutNeighbours(l: Line, head: nat, size: nat, n: nat, q: nat)
    requires Shape(l, head, size) && 0 < n < |l.nodes| - 1 && On(l, n) && q < |l.nodes|
    ensures q + 1 < |l.nodes| ==>
      Next(CutAt(l, n), q) == if Next(l, q) == n then Next(l, n) else Next(l, q)
    ensures 0 < q ==>
      Prev(CutAt(l, n), q) == if Prev(l, q) == n then Prev(l, n) else Prev(l, q)
  {
    var l' := CutAt(l, n);
    if q + 1 < |l.nodes| {
      NextCleared(l, q);
      NextCleared(l, n);
      OnButOne(l, head, size, n, Next(l, q));
      OnButOne(l, head, size, n, Next(l, n));
      NextIs(l', q, if Next(l, q) == n then Next(l, n) else Next(l, q));
    }
    if 0 < q {
      PrevCleared(l, q);
      PrevCleared(l, n);
      OnButOne(l, head, size, n, Prev(l, q));
      OnButOne(l, head, size, n, Prev(l, n));
      PrevIs(l', q, if Prev(l, q) == n then Prev(l, n) else Prev(l, q));
    }
  }

  lemma OnButOne(l: Line, head: nat, size: nat, n: nat, q: nat)
    requires Shape(l, head, size) && 0 < n < |l.nodes| - 1 && q < |l.nodes|
    ensures On(CutAt(l, n), q) <==> q != n && On(l, q)
  {
    if l.nodes[q] == l.nodes[n] {
      ChainPlace(l.nodes, head, size, n, q);
    }
  }

  /** The words after the node `x` between `a` and `b` was cut out. */
  function CutSucc(succ: seq<SWord>, a: nat, x: nat, b: nat): seq<SWord>
    requires a < |succ| && x < |succ|
  {
    succ[a := SWord(b, false, succ[a].d)][x := SNIL]
  }

  function CutPred(pred: seq<PWord>, a: nat, x: nat, b: nat): seq<PWord>
    requires b < |pred|
  {
    if pred[b].ptr == x then pred[b := PWord(a, pred[b].m)] else pred
  }

  /** What surrounds a node that is ready to be cut out. */
  lemma ReadyToCut(succ: seq<SWord>, pred: seq<PWord>, l: Line, head: nat, k: nat)
    requires Spells(succ, pred, l, head) && On(l, k) && k + 1 < |l.nodes|
    requires var x := l.nodes[Next(l, k)]; x in l.dead && pred[x].m && !succ[x].s
    ensures var n := Next(l, k);
      && 0 < n < |l.nodes| - 1 && On(l, n) && succ[l.nodes[n]].ptr == l.nodes[Next(l, n)]
      && l.nodes[Next(l, n)] !in l.dead && pred[l.nodes[n]].ptr == l.nodes[k]
      && l.nodes[k] < |succ| && l.nodes[n] < |succ| && l.nodes[Next(l, n)] < |succ|
  {
    var n := Next(l, k);
    assert l.nodes[n] != head;
    assert SuccOk(succ, pred, l, n) && PredOk(pred, l, n);
    PrevOfNext(l, k);
  }

  /** A node that is being unlinked is cut out once its marks are set and its successor is not being unlinked. */
  lemma SpellsCut(succ: seq<SWord>, pred: seq<PWord>, l: Line, head: nat, k: nat)
    requires Spells(succ, pred, l, head) && On(l, k) && k + 1 < |l.nodes|
    requires var x := l.nodes[Next(l, k)]; x in l.dead && pred[x].m && !succ[x].s
    ensures var n := Next(l, k);
      && 0 < n < |l.nodes| - 1 && l.nodes[k] < |succ| && l.nodes[n] < |succ| && l.nodes[Next(l, n)] < |succ|
      && Spells(CutSucc(succ, l.nodes[k], l.nodes[n], l.nodes[Next(l, n)]),
                CutPred(pred, l.nodes[k], l.nodes[n], l.nodes[Next(l, n)]), CutAt(l, n), head)
  {
    ReadyToCut(succ, pred, l, head, k);
    var n := Next(l, k);
    var m := Next(l, n);
    CutWords(succ, pred, l, head, k, n, m, CutSucc(succ, l.nodes[k], l.nodes[n], l.nodes[m]),
             CutPred(pred, l.nodes[k], l.nodes[n], l.nodes[m]), CutAt(l, n));
  }

  lemma CutWords(succ: seq<SWord>, pred: seq<PWord>, l: Line, head: nat, k: nat, n: nat, m: nat,
      succ': seq<SWord>, pred': seq<PWord>, l': Line)
    requires Spells(succ, pred, l, head) && On(l, k) && k + 1 < |l.nodes| && n == Next(l, k) < |l.nodes| - 1
    requires pred[l.nodes[n]].m && On(l, n) && m == Next(l, n) && l.nodes[m] !in l.dead
    requires succ' == CutSucc(succ, l.nodes[k], l.nodes[n], l.nodes[m])
    requires pred' == CutPred(pred, l.nodes[k], l.nodes[n], l.nodes[m]) && l' == CutAt(l, n)
    ensures Spells(succ', pred', l', head)
  {
    CutShape(l, head, |succ|, n);
    forall q | 0 <= q < |l.nodes| - 1
      ensures SuccOk(succ', pred', l', q)
    {
      CutSuccAt(succ, pred, l, head, k, n, m, q);
    }
    forall q | 0 < q < |l.nodes|
      ensures PredOk(pred', l', q)
    {
      CutPredAt(pred, l, head, k, n, m, q);
    }
    forall y | 0 <= y < |succ|
      ensures Loose(succ', pred', l', y)
    {
      CutLoose(succ, pred, l, head, k, n, m, y);
    }
  }

  lemma CutLoose(succ: seq<SWord>, pred: seq<PWord>, l: Line, head: nat, k: nat, n: nat, m: nat, y: nat)
    requires Spells(succ, pred, l, head) && k < |l.nodes| && n < |l.nodes| && m < |l.nodes| && y < |succ|
    ensures Loose(CutSucc(succ, l.nodes[k], l.nodes[n], l.nodes[m]),
                  CutPred(pred, l.nodes[k], l.nodes[n], l.nodes[m]), CutAt(l, n), y)
  {
    WordsOf(succ, pred, l, head, k);
    WordsOf(succ, pred, l, head, n);
    assert Loose(succ, pred, l, y);
    assert pred[y].ptr == 0 ==> y != l.nodes[k] && y != l.nodes[n];
  }

  lemma CutSuccAt(succ: seq<SWord>, pred: seq<PWord>, l: Line, head: nat, k: nat, n: nat, m: nat, q: nat)
    requires |succ| == |pred| && Shape(l, head, |succ|) && On(l, k) && k + 1 < |l.nodes| && q + 1 < |l.nodes|
    requires n == Next(l, k) < |l.nodes| - 1 && On(l, n) && m == Next(l, n) && l.nodes[m] !in l.dead
    requires SuccOk(succ, pred, l, q) && SuccOk(succ, pred, l, k)
    ensures SuccOk(CutSucc(succ, l.nodes[k], l.nodes[n], l.nodes[m]), CutPred(pred, l.nodes[k], l.nodes[n], l.nodes[m]),
                   CutAt(l, n), q)
  {
    var succ' := CutSucc(succ, l.nodes[k], l.nodes[n], l.nodes[m]);
    var pred' := CutPred(pred, l.nodes[k], l.nodes[n], l.nodes[m]);
    OnButOne(l, head, |succ|, n, q);
    if q == n {
      assert GoneSucc(succ', CutAt(l, n), q);
    } else if q == k {
      CutNeighbours(l, head, |succ|, n, q);
      assert OnSucc(succ', pred', CutAt(l, n), q);
    } else {
      assert l.nodes[q] != l.nodes[k] && l.nodes[q] != l.nodes[n] && succ'[l.nodes[q]] == succ[l.nodes[q]];
      if On(l, q) {
        CutOnSucc(succ, pred, l, head, k, n, q, succ', pred');
      } else if succ[l.nodes[q]] != SNIL {
        CutLeftBehind(l, head, |succ|, n, q, succ[l.nodes[q]].ptr);
        assert GoneSucc(succ', CutAt(l, n), q);
      }
    }
  }

  lemma CutOnSucc(succ: seq<SWord>, pred: seq<PWord>, l: Line, head: nat, k: nat, n: nat, q: nat,
      succ': seq<SWord>, pred': seq<PWord>)
    requires |succ| == |pred| == |succ'| == |pred'| && Shape(l, head, |succ|)
    requires k + 1 < |l.nodes| && q + 1 < |l.nodes| && q != k && On(l, k) && On(l, q)
    requires n == Next(l, k) < |l.nodes| - 1 && On(l, n) && OnSucc(succ, pred, l, q)
    requires succ'[l.nodes[q]] == succ[l.nodes[q]] && pred'[l.nodes[q]].m == pred[l.nodes[q]].m
    ensures OnSucc(succ', pred', CutAt(l, n), q)
  {
    CutNeighbours(l, head, |succ|, n, q);
    if l.nodes[Next(l, q)] == l.nodes[n] {
      OneBefore(l, head, |succ|, k, q);
    }
  }

  lemma CutLeftBehind(l: Line, head: nat, size: nat, n: nat, q: nat, b: nat)
    requires Shape(l, head, size) && 0 < n < |l.nodes| - 1 && On(l, n) && q + 1 < |l.nodes| && l.nodes[q] in l.gone
    requires LeftBehind(l, q, b)
    ensures LeftBehind(CutAt(l, n), q, b)
  {
    CutNeighbours(l, head, size, n, q);
  }

  lemma CutPredAt(pred: seq<PWord>, l: Line, head: nat, k: nat, n: nat, m: nat, q: nat)
    requires Shape(l, head, |pred|) && On(l, k) && k + 1 < |l.nodes| && 0 < q < |l.nodes|
    requires n == Next(l, k) < |l.nodes| - 1 && On(l, n) && m == Next(l, n) && l.nodes[m] !in l.dead
    requires PredOk(pred, l, q) && PredOk(pred, l, n) && pred[l.nodes[n]].m
    ensures PredOk(CutPred(pred, l.nodes[k], l.nodes[n], l.nodes[m]), CutAt(l, n), q)
  {
    var pred' := CutPred(pred, l.nodes[k], l.nodes[n], l.nodes[m]);
    OnButOne(l, head, |pred|, n, q);
    if l.nodes[q] == l.nodes[m] {
      ChainPlace(l.nodes, head, |pred|, q, m);
      NextIsOn(l, head, |pred|, n);
      CutPredBehind(pred, l, k, n, m);
    } else if On(l, q) && q != n {
      CutOnPred(pred, l, head, n, q, pred');
    } else {
      PrevOfNext(l, k);
      CutGonePred(pred, l, k, n, q, pred');
    }
  }

  lemma CutPredBehind(pred: seq<PWord>, l: Line, k: nat, n: nat, m: nat)
    requires k < n < m < |l.nodes| && l.nodes[m] !in l.gone && l.nodes[m] != l.nodes[n] && l.nodes[m] < |pred|
    requires Among(l, 0, m, pred[l.nodes[m]].ptr) && !pred[l.nodes[m]].m
    ensures PredOk(CutPred(pred, l.nodes[k], l.nodes[n], l.nodes[m]), CutAt(l, n), m)
  {
    assert Among(l, 0, m, l.nodes[k]);
  }

  lemma CutGonePred(pred: seq<PWord>, l: Line, k: nat, n: nat, q: nat, pred': seq<PWord>)
    requires k + 1 < |l.nodes| && On(l, k) && n < |l.nodes| && On(l, n) && l.nodes[k] != l.nodes[n]
    requires forall y :: y in l.gone ==> l.gone[y] < l.cuts
    requires 0 < q < |l.nodes| && l.nodes[q] < |pred| == |pred'| && pred'[l.nodes[q]] == pred[l.nodes[q]]
    requires PredOk(pred, l, q) && (q == n || l.nodes[q] in l.gone)
    requires q == n ==> pred[l.nodes[n]] == PWord(l.nodes[k], true)
    ensures PredOk(pred', CutAt(l, n), q)
  {
    assert GonePred(pred', CutAt(l, n), q);
  }

  lemma CutOnPred(pred: seq<PWord>, l: Line, head: nat, n: nat, q: nat, pred': seq<PWord>)
    requires Shape(l, head, |pred|) && |pred| == |pred'| && On(l, n) && On(l, q)
    requires 0 < n < |l.nodes| - 1 && 0 < q < |l.nodes| && q != n && l.nodes[q] != l.nodes[Next(l, n)]
    requires PredOk(pred, l, q) && pred'[l.nodes[q]] == pred[l.nodes[q]]
    ensures PredOk(pred', CutAt(l, n), q)
  {
    CutNeighbours(l, head, |pred|, n, q);
    OnButOne(l, head, |pred|, n, q);
    if Prev(l, q) == n {
      NextOfPrev(l, q);
    }
    assert OnPred(pred', CutAt(l, n), q);
  }

  // ---------------------------------------------------------------- marking a node that is being unlinked

  /** The node behind place `k`, when it is being unlinked, gets its own two marks. */
  lemma SpellsLeaving(succ: seq<SWord>, pred: seq<PWord>, l: Line, head: nat, k: nat)
    requires Spells(succ, pred, l, head) && On(l, k) && k + 1 < |l.nodes| && l.nodes[Next(l, k)] in l.dead
    ensures var a, x := l.nodes[k], l.nodes[Next(l, k)];
      && 0 < a < |succ| && x < |succ| && 0 < Next(l, k) < |l.nodes| - 1 && pred[x].ptr != 0 && On(l, Next(l, k))
      && (pred[x].m ==> pred[x].ptr == a) && succ[x].ptr != 0
      && Spells(succ[x := succ[x].(d := true)], pred[x := PWord(a, true)], l, head)
  {
    var n := Next(l, k);
    var a, x := l.nodes[k], l.nodes[n];
    assert x != head;
    NextIsOn(l, head, |succ|, k);
    PrevOfNext(l, k);
    WordsOf(succ, pred, l, head, n);
    var succ', pred' := succ[x := succ[x].(d := true)], pred[x := PWord(a, true)];
    forall q | 0 <= q < |l.nodes| - 1
      ensures SuccOk(succ', pred', l, q)
    {
      assert SuccOk(succ, pred, l, q);
      if q != n {
        assert l.nodes[q] != x;
      }
    }
    forall q | 0 < q < |l.nodes|
      ensures PredOk(pred', l, q)
    {
      LeavingPredAt(pred, l, head, k, n, q);
    }
    forall y | 0 <= y < |succ|
      ensures Loose(succ', pred', l, y)
    {
      assert Loose(succ, pred, l, y);
    }
  }

  lemma LeavingPredAt(pred: seq<PWord>, l: Line, head: nat, k: nat, n: nat, q: nat)
    requires Shape(l, head, |pred|) && On(l, k) && k < n < |l.nodes| - 1 && On(l, n) && k == Prev(l, n)
    requires l.nodes[n] in l.dead && 0 < q < |l.nodes| && PredOk(pred, l, q)
    ensures PredOk(pred[l.nodes[n] := PWord(l.nodes[k], true)], l, q)
  {
    if l.nodes[q] == l.nodes[n] {
      ChainPlace(l.nodes, head, |pred|, q, n);
      assert Among(l, 0, n, l.nodes[k]);
    }
  }

  // ---------------------------------------------------------------- linking a node

  /** The line with a new node right behind place `k`. */
  function InsertAt(l: Line, k: nat, x: nat): Line
    requires k < |l.nodes|
  {
    l.(nodes := Insert(l.nodes, k + 1, x))
  }

  /** Where a place of the old line is in the new one. */
  function Shifted(k: nat, q: nat): nat { if q <= k then q else q + 1 }

  /** What inserting `x` behind place `k` does to the places. */
  ghost predicate Inserted(l: Line, l': Line, k: nat, x: nat)
    requires k < |l.nodes|
  {
    && |l'.nodes| == |l.nodes| + 1 && l'.nodes[k + 1] == x && l'.gone == l.gone && l'.dead == l.dead
    && (forall q: nat :: q < |l.nodes| ==> l'.nodes[Shifted(k, q)] == l.nodes[q])
  }

  lemma InsertPlaces(l: Line, k: nat, x: nat)
    requires k < |l.nodes|
    ensures Inserted(l, InsertAt(l, k, x), k, x)
  {}

  lemma InsertCleared(l: Line, l': Line, k: nat, x: nat, i: nat, n: nat)
    requires k < |l.nodes| && Inserted(l, l', k, x) && i < n < |l.nodes| && (k < i || n <= k) && Cleared(l, i, n)
    ensures Cleared(l', Shifted(k, i), Shifted(k, n))
  {
    forall q' | Shifted(k, i) < q' < Shifted(k, n)
      ensures l'.nodes[q'] in l'.gone
    {
      var q := if q' <= k then q' else q' - 1;
      assert l'.nodes[Shifted(k, q)] == l.nodes[q];
    }
  }

  lemma InsertClearedBehind(l: Line, l': Line, k: nat, x: nat, n: nat)
    requires k < n < |l.nodes| && Inserted(l, l', k, x) && Cleared(l, k, n)
    ensures Cleared(l', k + 1, n + 1)
  {
    forall q' | k + 1 < q' < n + 1
      ensures l'.nodes[q'] in l'.gone
    {
      assert l'.nodes[Shifted(k, q' - 1)] == l.nodes[q' - 1];
    }
  }

  lemma InsertNext(l: Line, l': Line, k: nat, x: nat, q: nat)
    requires k + 1 < |l.nodes| && Inserted(l, l', k, x) && On(l, k) && x !in l.gone && q + 1 < |l.nodes|
    ensures Next(l', Shifted(k, q)) == if q == k then k + 1 else Shifted(k, Next(l, q))
    ensures Next(l', k + 1) == Next(l, k) + 1
  {
    var n := Next(l, q);
    NextCleared(l, q);
    assert l'.nodes[Shifted(k, n)] == l.nodes[n];
    if q == k {
      assert Cleared(l', k, k + 1);
      NextIs(l', k, k + 1);
    } else {
      InsertCleared(l, l', k, x, q, n);
      NextIs(l', Shifted(k, q), Shifted(k, n));
    }
    InsertNextOfNew(l, l', k, x);
  }

  lemma InsertNextOfNew(l: Line, l': Line, k: nat, x: nat)
    requires k + 1 < |l.nodes| && Inserted(l, l', k, x)
    ensures Next(l', k + 1) == Next(l, k) + 1
  {
    NextCleared(l, k);
    assert l'.nodes[Shifted(k, Next(l, k))] == l.nodes[Next(l, k)];
    InsertClearedBehind(l, l', k, x, Next(l, k));
    NextIs(l', k + 1, Next(l, k) + 1);
  }

  lemma InsertPrev(l: Line, l': Line, k: nat, x: nat, q: nat)
    requires k + 1 < |l.nodes| && Inserted(l, l', k, x) && On(l, k) && x !in l.gone && 0 < q < |l.nodes|
    ensures Prev(l', Shifted(k, q)) == if k < q && Prev(l, q) == k then k + 1 else Shifted(k, Prev(l, q))
  {
    var p := Prev(l, q);
    PrevCleared(l, q);
    assert l'.nodes[Shifted(k, p)] == l.nodes[p];
    if k < q && p <= k {
      assert p == k;
      InsertClearedBehind(l, l', k, x, q);
      PrevIs(l', q + 1, k + 1);
    } else {
      InsertCleared(l, l', k, x, p, q);
      PrevIs(l', Shifted(k, q), Shifted(k, p));
    }
  }

  lemma InsertAmong(l: Line, l': Line, k: nat, x: nat, lo: nat, hi: nat, y: nat)
    requires k < |l.nodes| && Inserted(l, l', k, x) && hi <= |l.nodes| && Among(l, lo, hi, y)
    ensures Among(l', Shifted(k, lo), if hi <= k then hi else hi + 1, y)
  {
    var j: nat :| lo <= j < hi && l.nodes[j] == y;
    assert l'.nodes[Shifted(k, j)] == y;
  }

  /**
   * Linking `x` right behind the node `a` at place `k`, which is not D-marked and the successor of
   * which is not being unlinked. The predecessor word of that successor still lags behind.
   */
  lemma SpellsInsert(succ: seq<SWord>, pred: seq<PWord>, l: Line, head: nat, k: nat, x: nat, b: nat)
    requires Spells(succ, pred, l, head) && k + 1 < |l.nodes| && 0 < b && 0 < x < |succ| && pred[x] == PNIL
    requires succ[l.nodes[k]] == SWord(b, false, false)
    ensures On(l, k) && x !in l.nodes && b == l.nodes[Next(l, k)]
    ensures Spells(succ[x := SWord(b, false, false)][l.nodes[k] := SWord(x, false, false)],
                   pred[x := PWord(l.nodes[k], false)], InsertAt(l, k, x), head)
  {
    assert SuccOk(succ, pred, l, k) && Loose(succ, pred, l, x);
    assert On(l, k);
    assert x !in l.nodes by {
      if x in l.nodes {
        WordsOf(succ, pred, l, head, Place(l.nodes, x));
      }
    }
    InsertChain(l.nodes, head, |succ|, k + 1, x);
    InsertPlaces(l, k, x);
    InsertWords(succ, pred, l, head, k, x, succ[x := SWord(b, false, false)][l.nodes[k] := SWord(x, false, false)],
                pred[x := PWord(l.nodes[k], false)], InsertAt(l, k, x));
  }

  /** The words of a line are as before, but for the new node `x` and the node before it. */
  ghost predicate Joined(succ: seq<SWord>, pred: seq<PWord>, l: Line, head: nat, k: nat, x: nat,
      succ': seq<SWord>, pred': seq<PWord>, l': Line) {
    && |succ| == |pred| == |succ'| == |pred'| && Shape(l, head, |succ|) && Shape(l', head, |succ|)
    && k + 1 < |l.nodes| && Inserted(l, l', k, x) && On(l, k)
    && 0 < x < |succ| && x !in l.nodes && x !in l.dead && x !in l.gone && l.nodes[Next(l, k)] !in l.dead
    && succ' == succ[x := SWord(l.nodes[Next(l, k)], false, false)][l.nodes[k] := SWord(x, false, false)]
    && pred' == pred[x := PWord(l.nodes[k], false)]
  }

  lemma InsertWords(succ: seq<SWord>, pred: seq<PWord>, l: Line, head: nat, k: nat, x: nat,
      succ': seq<SWord>, pred': seq<PWord>, l': Line)
    requires Spells(succ, pred, l, head) && Joined(succ, pred, l, head, k, x, succ', pred', l')
    ensures Spells(succ', pred', l', head)
  {
    forall q' | 0 <= q' < |l'.nodes| - 1
      ensures SuccOk(succ', pred', l', q')
    {
      if q' == k + 1 {
        InsertOwnWords(succ, pred, l, head, k, x, succ', pred', l');
      } else {
        var q := if q' <= k then q' else q' - 1;
        InsertSuccAt(succ, pred, l, head, k, x, q, succ', pred', l');
        assert Shifted(k, q) == q';
      }
    }
    forall q' | 0 < q' < |l'.nodes|
      ensures PredOk(pred', l', q')
    {
      if q' == k + 1 {
        InsertOwnWords(succ, pred, l, head, k, x, succ', pred', l');
      } else {
        var q := if q' <= k then q' else q' - 1;
        InsertPredAt(succ, pred, l, head, k, x, q, succ', pred', l');
        assert Shifted(k, q) == q';
      }
    }
    forall y | 0 <= y < |succ|
      ensures Loose(succ', pred', l', y)
    {
      InsertLoose(succ, pred, l, head, k, x, succ', pred', l', y);
    }
  }

  lemma InsertLoose(succ: seq<SWord>, pred: seq<PWord>, l: Line, head: nat, k: nat, x: nat,
      succ': seq<SWord>, pred': seq<PWord>, l': Line, y: nat)
    requires Spells(succ, pred, l, head) && Joined(succ, pred, l, head, k, x, succ', pred', l') && y < |succ|
    ensures Loose(succ', pred', l', y)
  {
    WordsOf(succ, pred, l, head, k);
    assert Loose(succ, pred, l, y);
  }

  lemma InsertOwnWords(succ: seq<SWord>, pred: seq<PWord>, l: Line, head: nat, k: nat, x: nat,
      succ': seq<SWord>, pred': seq<PWord>, l': Line)
    requires Joined(succ, pred, l, head, k, x, succ', pred', l')
    ensures SuccOk(succ', pred', l', k + 1) && PredOk(pred', l', k + 1)
  {
    InsertNextOfNew(l, l', k, x);
    assert l.nodes[k] != x;
    assert l'.nodes[Shifted(k, Next(l, k))] == l.nodes[Next(l, k)] && l'.nodes[Shifted(k, k)] == l.nodes[k];
    assert OnSucc(succ', pred', l', k + 1);
    assert Among(l', 0, k + 1, l.nodes[k]);
  }

  lemma InsertSuccAt(succ: seq<SWord>, pred: seq<PWord>, l: Line, head: nat, k: nat, x: nat, q: nat,
      succ': seq<SWord>, pred': seq<PWord>, l': Line)
    requires Joined(succ, pred, l, head, k, x, succ', pred', l') && q + 1 < |l.nodes| && SuccOk(succ, pred, l, q)
    ensures SuccOk(succ', pred', l', Shifted(k, q))
  {
    InsertNext(l, l', k, x, q);
    assert l'.nodes[Shifted(k, q)] == l.nodes[q] && l'.nodes[Shifted(k, Next(l, q))] == l.nodes[Next(l, q)];
    if q == k {
      assert OnSucc(succ', pred', l', k);
    } else {
      assert l.nodes[q] != l.nodes[k] && l.nodes[q] != x && succ'[l.nodes[q]] == succ[l.nodes[q]];
      if On(l, q) {
        assert OnSucc(succ', pred', l', Shifted(k, q));
      } else {
        if succ[l.nodes[q]] != SNIL {
          InsertLeftBehind(l, l', k, x, q, succ[l.nodes[q]].ptr);
        }
        assert GoneSucc(succ', l', Shifted(k, q));
      }
    }
  }

  lemma InsertLeftBehind(l: Line, l': Line, k: nat, x: nat, q: nat, b: nat)
    requires k + 1 < |l.nodes| && On(l, k) && q + 1 < |l.nodes| && q != k && LeftBehind(l, q, b)
    requires Inserted(l, l', k, x) && Next(l', Shifted(k, q)) == Shifted(k, Next(l, q))
    ensures LeftBehind(l', Shifted(k, q), b)
  {
    InsertAmong(l, l', k, x, q + 1, Next(l, q) + 1, b);
    NextCleared(l, q);
    assert Shifted(k, q + 1) == Shifted(k, q) + 1;
  }

  lemma InsertPredAt(succ: seq<SWord>, pred: seq<PWord>, l: Line, head: nat, k: nat, x: nat, q: nat,
      succ': seq<SWord>, pred': seq<PWord>, l': Line)
    requires Joined(succ, pred, l, head, k, x, succ', pred', l') && 0 < q < |l.nodes| && PredOk(pred, l, q)
    ensures PredOk(pred', l', Shifted(k, q))
  {
    assert l'.nodes[Shifted(k, q)] == l.nodes[q] && l.nodes[q] != x;
    InsertAmong(l, l', k, x, 0, q, pred[l.nodes[q]].ptr);
    if On(l, q) {
      InsertPrev(l, l', k, x, q);
      assert l'.nodes[Shifted(k, Prev(l, q))] == l.nodes[Prev(l, q)];
      if k < q && Prev(l, q) == k {
        NextOfPrev(l, q);
      }
      assert OnPred(pred', l', Shifted(k, q));
    } else {
      assert GonePred(pred', l', Shifted(k, q));
    }
  }

  // ---------------------------------------------------------------- forgetting a node that was cut out

  /** The line without the node at place `n`. */
  function ForgetAt(l: Line, n: nat): Line
    requires n < |l.nodes|
  {
    l.(nodes := Remove(l.nodes, n), gone := l.gone - {l.nodes[n]})
  }

  /** Where a place of the old line is in the new one. */
  function Closed(n: nat, q: nat): nat { if q <= n then q else q - 1 }

  /** What removing place `n`, which was cut out, does to the places. */
  ghost predicate Removed(l: Line, l': Line, head: nat, size: nat, n: nat) {
    && Shape(l, head, size) && Shape(l', head, size) && 0 < n < |l.nodes| - 1 && l.nodes[n] in l.gone
    && |l'.nodes| == |l.nodes| - 1 && l'.gone == l.gone - {l.nodes[n]} && l'.dead == l.dead
    && (forall q: nat :: q < |l.nodes| && q != n ==> l'.nodes[Closed(n, q)] == l.nodes[q] && l.nodes[q] != l.nodes[n])
  }

  lemma ForgetPlaces(l: Line, head: nat, size: nat, n: nat)
    requires Shape(l, head, size) && 0 < n < |l.nodes| - 1 && l.nodes[n] in l.gone
    ensures Removed(l, ForgetAt(l, n), head, size, n)
  {
    RemoveChain(l.nodes, head, size, n);
  }

  lemma ForgetCleared(l: Line, l': Line, head: nat, size: nat, n: nat, i: nat, m: nat)
    requires Removed(l, l', head, size, n) && i < m < |l.nodes| && i != n && m != n && Cleared(l, i, m)
    ensures Cleared(l', Closed(n, i), Closed(n, m))
  {
    forall q' | Closed(n, i) < q' < Closed(n, m)
      ensures l'.nodes[q'] in l'.gone
    {
      var q := if q' < n then q' else q' + 1;
      assert l'.nodes[Closed(n, q)] == l.nodes[q];
    }
  }

  lemma ForgetNeighbours(l: Line, l': Line, head: nat, size: nat, n: nat, q: nat)
    requires Removed(l, l', head, size, n) && q < |l.nodes| && q != n
    ensures q + 1 < |l.nodes| ==> Next(l, q) != n && Next(l', Closed(n, q)) == Closed(n, Next(l, q))
    ensures 0 < q ==> Prev(l, q) != n && Prev(l', Closed(n, q)) == Closed(n, Prev(l, q))
  {
    if q + 1 < |l.nodes| {
      NextCleared(l, q);
      assert l'.nodes[Closed(n, Next(l, q))] == l.nodes[Next(l, q)];
      ForgetCleared(l, l', head, size, n, q, Next(l, q));
      NextIs(l', Closed(n, q), Closed(n, Next(l, q)));
    }
    if 0 < q {
      PrevCleared(l, q);
      assert l'.nodes[Closed(n, Prev(l, q))] == l.nodes[Prev(l, q)];
      ForgetCleared(l, l', head, size, n, Prev(l, q), q);
      PrevIs(l', Closed(n, q), Closed(n, Prev(l, q)));
    }
  }

  lemma ForgetAmong(l: Line, l': Line, head: nat, size: nat, n: nat, lo: nat, hi: nat, y: nat)
    requires Removed(l, l', head, size, n) && hi <= |l.nodes| && Among(l, lo, hi, y) && y != l.nodes[n]
    ensures Among(l', if lo <= n then lo else lo - 1, if hi <= n then hi else hi - 1, y)
  {
    var j: nat :| lo <= j < hi && l.nodes[j] == y;
    assert l'.nodes[Closed(n, j)] == y;
  }

  /** A node that was cut out, and that no word names any more, is forgotten: it has no words and no place. */
  lemma SpellsForget(succ: seq<SWord>, pred: seq<PWord>, l: Line, head: nat, n: nat)
    requires Spells(succ, pred, l, head) && 0 < n < |l.nodes| - 1 && l.nodes[n] in l.gone
    requires succ[l.nodes[n]] == SNIL
    requires forall y :: 0 <= y < |succ| ==> succ[y].ptr != l.nodes[n] && pred[y].ptr != l.nodes[n]
    ensures Spells(succ, pred[l.nodes[n] := PNIL], ForgetAt(l, n), head)
  {
    ForgetPlaces(l, head, |succ|, n);
    forall q: nat | q < |l.nodes|
      ensures NamesOthers(succ, pred, l.nodes[q], l.nodes[n])
    {
      assert l.nodes[q] < |succ|;
    }
    ForgetWords(succ, pred, l, ForgetAt(l, n), head, n, pred[l.nodes[n] := PNIL]);
  }

  predicate NamesOthers(succ: seq<SWord>, pred: seq<PWord>, y: nat, x: nat) {
    y < |succ| && y < |pred| && succ[y].ptr != x && pred[y].ptr != x
  }

  lemma ForgetWords(succ: seq<SWord>, pred: seq<PWord>, l: Line, l': Line, head: nat, n: nat, pred': seq<PWord>)
    requires Spells(succ, pred, l, head) && Removed(l, l', head, |succ|, n) && succ[l.nodes[n]] == SNIL
    requires pred' == pred[l.nodes[n] := PNIL]
    requires forall q: nat {:trigger NamesOthers(succ, pred, l.nodes[q], l.nodes[n])} ::
      q < |l.nodes| ==> NamesOthers(succ, pred, l.nodes[q], l.nodes[n])
    ensures Spells(succ, pred', l', head)
  {
    forall q' | 0 <= q' < |l'.nodes| - 1
      ensures SuccOk(succ, pred', l', q')
    {
      var q := if q' < n then q' else q' + 1;
      assert NamesOthers(succ, pred, l.nodes[q], l.nodes[n]);
      ForgetSuccAt(succ, pred, l, l', head, n, q, pred');
      assert Closed(n, q) == q';
    }
    forall q' | 0 < q' < |l'.nodes|
      ensures PredOk(pred', l', q')
    {
      var q := if q' < n then q' else q' + 1;
      assert NamesOthers(succ, pred, l.nodes[q], l.nodes[n]);
      ForgetPredAt(pred, l, l', head, n, q, pred');
      assert Closed(n, q) == q';
    }
    forall y | 0 <= y < |succ|
      ensures Loose(succ, pred', l', y)
    {
      assert Loose(succ, pred, l, y);
    }
  }

  lemma ForgetSuccAt(succ: seq<SWord>, pred: seq<PWord>, l: Line, l': Line, head: nat, n: nat, q: nat,
                     pred': seq<PWord>)
    requires |succ| == |pred| && Removed(l, l', head, |succ|, n) && q + 1 < |l.nodes| && q != n
    requires SuccOk(succ, pred, l, q) && succ[l.nodes[q]].ptr != l.nodes[n]
    requires l.nodes[n] < |pred| && pred' == pred[l.nodes[n] := PNIL]
    ensures SuccOk(succ, pred', l', Closed(n, q))
  {
    ForgetNeighbours(l, l', head, |succ|, n, q);
    assert l'.nodes[Closed(n, q)] == l.nodes[q] && l'.nodes[Closed(n, Next(l, q))] == l.nodes[Next(l, q)];
    if On(l, q) {
      assert OnSucc(succ, pred', l', Closed(n, q));
    } else {
      if succ[l.nodes[q]] != SNIL {
        ForgetAmong(l, l', head, |succ|, n, q + 1, Next(l, q) + 1, succ[l.nodes[q]].ptr);
        assert LeftBehind(l', Closed(n, q), succ[l.nodes[q]].ptr);
      }
      assert GoneSucc(succ, l', Closed(n, q));
    }
  }

  lemma ForgetPredAt(pred: seq<PWord>, l: Line, l': Line, head: nat, n: nat, q: nat, pred': seq<PWord>)
    requires Removed(l, l', head, |pred|, n) && 0 < q < |l.nodes| && q != n
    requires PredOk(pred, l, q) && pred[l.nodes[q]].ptr != l.nodes[n]
    requires l.nodes[n] < |pred| && pred' == pred[l.nodes[n] := PNIL]
    ensures PredOk(pred', l', Closed(n, q))
  {
    ForgetNeighbours(l, l', head, |pred|, n, q);
    assert l'.nodes[Closed(n, q)] == l.nodes[q] && l'.nodes[Closed(n, Prev(l, q))] == l.nodes[Prev(l, q)];
    ForgetAmong(l, l', head, |pred|, n, 0, q, pred[l.nodes[q]].ptr);
    if On(l, q) {
      assert OnPred(pred', l', Closed(n, q));
    } else {
      assert GonePred(pred', l', Closed(n, q));
    }
  }

  // ---------------------------------------------------------------- the documented invariants

  /**
   * The invariants at the head of the list's source about single nodes, in any list that its
   * operations can leave behind: a successor word names the direct successor; a predecessor word
   * names an earlier node; both are there or none; a node without predecessor word or with a marked
   * one is not linked, or being unlinked; a marked one of a node that is still in the chain names
   * the direct predecessor; a node is D-marked only after that.
   */
  lemma DocumentedInvariants(succ: seq<SWord>, pred: seq<PWord>, l: Line, head: nat, x: nat)
    requires Spells(succ, pred, l, head) && x < |succ|
    ensures pred[x].ptr == 0 ==> succ[x].ptr == 0 && x !in l.nodes
    ensures pred[x].m && x in l.nodes ==> x in l.dead || x in l.gone
    ensures x in l.nodes ==>
      Place(l.nodes, x) + 1 < |l.nodes| && 0 < PlaceBefore(l.nodes, x)
      && Among(l, 0, PlaceBefore(l.nodes, x), pred[x].ptr)
    ensures x in l.nodes && x !in l.gone ==>
      && succ[x].ptr == l.nodes[Next(l, Place(l.nodes, x))] && (succ[x].d ==> pred[x].m)
      && (pred[x].m ==> pred[x].ptr == l.nodes[Prev(l, PlaceBefore(l.nodes, x))])
  {
    assert Loose(succ, pred, l, x);
    if x in l.nodes {
      WordsOf(succ, pred, l, head, Place(l.nodes, x));
    }
  }

  /** When `x` has a marked predecessor word, the node that names it either does not name `x`, or names it S-marked. */
  lemma MarkedInvariant(succ: seq<SWord>, pred: seq<PWord>, l: Line, head: nat, i: nat)
    requires Spells(succ, pred, l, head) && 0 < i < |l.nodes| && pred[l.nodes[i]].m
    ensures var x := l.nodes[i]; var a := pred[x].ptr;
      0 < a < |succ| && (succ[a].ptr != x || succ[a].s)
  {
    var x := l.nodes[i];
    assert PredOk(pred, l, i);
    var j: nat :| j < i && l.nodes[j] == pred[x].ptr;
    assert SuccOk(succ, pred, l, j);
    if On(l, i) {
      NextOfPrev(l, i);
      PlacesMeet(l, head, |succ|, j, Prev(l, i));
      assert x in l.dead;
    } else if On(l, j) {
      NextIsOn(l, head, |succ|, j);
    }
  }

  lemma PlacesMeet(l: Line, head: nat, size: nat, i: nat, j: nat)
    requires Shape(l, head, size) && i < |l.nodes| - 1 && j < |l.nodes| - 1 && l.nodes[i] == l.nodes[j]
    ensures i == j
  {}

  /** Two nodes with unmarked predecessor words do not share a successor. */
  lemma OneUnmarkedBefore(succ: seq<SWord>, pred: seq<PWord>, l: Line, head: nat, i: nat, j: nat)
    requires Spells(succ, pred, l, head) && i < |l.nodes| && j < |l.nodes|
    requires !pred[l.nodes[i]].m && !pred[l.nodes[j]].m && succ[l.nodes[i]].ptr == succ[l.nodes[j]].ptr
    ensures l.nodes[i] == l.nodes[j]
  {
    WordsOf(succ, pred, l, head, i);
    WordsOf(succ, pred, l, head, j);
    OneBefore(l, head, |succ|, Place(l.nodes, l.nodes[i]), Place(l.nodes, l.nodes[j]));
  }

  // ---------------------------------------------------------------- clean lists

  /** The line of a list that nobody is working on. */
  function Clean(chain: seq<nat>): Line { Line(chain, {}, map[], 0) }

  /**
   * Memory spells a chain on which no operation is in progress. Predecessor words may still lag
   * behind, as linkers leave them that stopped between their two exchanges.
   */
  predicate Spelled(succ: seq<SWord>, pred: seq<PWord>, chain: seq<nat>, head: nat) {
    && Spells(succ, pred, Clean(chain), head)
    && (forall y {:trigger Known(pred, chain, y)} :: 0 <= y < |pred| ==> Known(pred, chain, y))
  }

  /** Only nodes of the chain have words. */
  predicate Known(pred: seq<PWord>, chain: seq<nat>, y: nat)
    requires y < |pred|
  {
    pred[y].ptr != 0 ==> y in chain
  }

  /** The words of a place of a clean list. */
  lemma SpelledAt(succ: seq<SWord>, pred: seq<PWord>, chain: seq<nat>, head: nat, i: nat)
    requires Spelled(succ, pred, chain, head) && i < |chain|
    ensures 0 < chain[i] < |succ|
    ensures i + 1 < |chain| ==> Next(Clean(chain), i) == i + 1 && succ[chain[i]] == SWord(chain[i + 1], false, false)
    ensures !pred[chain[i]].m && pred[chain[i]].ptr != 0
  {
    WordsOf(succ, pred, Clean(chain), head, i);
  }

  /** A linked node has a predecessor word, an unlinked one has none. */
  lemma LinkedByPred(succ: seq<SWord>, pred: seq<PWord>, chain: seq<nat>, head: nat, x: nat)
    requires Spelled(succ, pred, chain, head) && x < |pred|
    ensures x in chain <==> pred[x].ptr != 0
    ensures !pred[x].m
    ensures x !in chain ==> pred[x] == PNIL && succ[x] == SNIL
  {
    if x in chain {
      SpelledAt(succ, pred, chain, head, Place(chain, x));
    } else {
      assert Loose(succ, pred, Clean(chain), x) && Known(pred, chain, x);
    }
  }

  /** A node whose successor word names `x` sits right before it. */
  lemma NeighbourPlace(succ: seq<SWord>, pred: seq<PWord>, chain: seq<nat>, head: nat, a: nat, x: nat)
    requires Spelled(succ, pred, chain, head) && a < |succ| && succ[a].ptr == x && x != head && x != 0
    ensures x in chain && 0 < Place(chain, x) < |chain| - 1 && chain[Place(chain, x) - 1] == a
  {
    LinkedByPred(succ, pred, chain, head, a);
    assert a in chain;
    PlacesOf(chain, head, |succ|, a);
    var i := Place(chain, a);
    SpelledAt(succ, pred, chain, head, i);
    assert chain[i + 1] == x;
    PlaceAt(chain, head, |succ|, i + 1);
  }

  /** Without nodes that are being unlinked or were cut out a line is a clean one, however many cuts there were. */
  lemma CleanAgain(succ: seq<SWord>, pred: seq<PWord>, l: Line, head: nat)
    requires Spells(succ, pred, l, head) && l.dead == {} && l.gone == map[]
    requires forall y {:trigger Known(pred, l.nodes, y)} :: 0 <= y < |pred| ==> Known(pred, l.nodes, y)
    ensures Spelled(succ, pred, l.nodes, head)
  {
    var c := Clean(l.nodes);
    forall q | 0 <= q < |l.nodes| - 1
      ensures SuccOk(succ, pred, c, q)
    {
      assert SuccOk(succ, pred, l, q);
      SameNeighbours(l, c, q);
    }
    forall q | 0 < q < |l.nodes|
      ensures PredOk(pred, c, q)
    {
      assert PredOk(pred, l, q);
      SameNeighbours(l, c, q);
      var j: nat :| j < q && l.nodes[j] == pred[l.nodes[q]].ptr;
      assert c.nodes[j] == pred[l.nodes[q]].ptr;
    }
    forall y | 0 <= y < |succ|
      ensures Loose(succ, pred, c, y)
    {
      assert Loose(succ, pred, l, y);
    }
  }
}
