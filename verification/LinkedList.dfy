/** The lock-free list of `ll_list`, each operation run to completion on a heap of nodes. */
module LinkedList {
  import opened ListAiding
  import opened ListAmid
  import opened ListElements
  import opened ListHelping
  import opened ListLine
  import opened ListModel
  import opened ListOrder
  import opened ListRepair
  import opened ListWaiting
  import opened SeqSum

  function ToSucc(y: nat): SWord -> int { (w: SWord) => if w.ptr == y then 1 else 0 }

  function ToPred(y: nat): PWord -> int { (w: PWord) => if w.ptr == y then 1 else 0 }

  /** Outcomes of `link_`. */
  datatype XLink = XOk | XRetry | XTwice | XLostA | XLostB | XLostAB

  /** Outcomes of `link_after_` and `link_before_`. */
  datatype LinkResult = LinkOk | LinkLost | LinkTwice

  /** Outcomes of `unlink_`; the last one stands for its final wait, which only other threads can end. */
  datatype UnlinkResult = UnlinkOk | UnlinkRetry | UnlinkFail | UnlinkWaits

  /** Why `link_` could not put a node between `a` and `b`: their words do not say that they are neighbours. */
  function LinkError(succ: seq<SWord>, pred: seq<PWord>, a: nat, b: nat): XLink
    requires a < |succ| && a < |pred| && b < |pred|
  {
    if succ[a].ptr == 0 then (if pred[b].m then XLostAB else XLostA)
    else if succ[a] != SWord(b, true, false) then XRetry
    else if pred[a].m then XLostAB else XLostB
  }

  /** Why `unlink_` refused: `a` is not the direct predecessor of `x`. */
  function UnlinkRefusal(succ: seq<SWord>, pred: seq<PWord>, a: nat, x: nat): UnlinkResult
    requires a < |succ| && x < |pred|
  {
    if succ[a].ptr == x && succ[a].s then UnlinkFail else if pred[x].m then UnlinkFail else UnlinkRetry
  }

  /** The words of a list without elements. */
  lemma NewList(succ: seq<SWord>, pred: seq<PWord>, head: nat)
    requires 0 < head < |succ| == |pred|
    requires forall y :: 0 <= y < |succ| ==>
      && succ[y] == (if y == head then SWord(head, false, false) else SNIL)
      && pred[y] == (if y == head then PWord(head, false) else PNIL)
    ensures Spelled(succ, pred, [head, head], head)
  {
    forall y | 0 <= y < |pred|
      ensures Known(pred, [head, head], y)
    {}
  }

  /** A marker that comes right behind `a`. */
  lemma MarkerBehind(chain: seq<nat>, kind: seq<Kind>, head: nat, a: nat, x: nat)
    requires Chain(chain, head, |kind|) && OneHead(kind, head) && a in Ranks(chain, kind)
    requires x !in chain && 0 < x < |kind| && kind[x].Iterator?
    ensures a in chain && Place(chain, a) + 1 < |chain|
    ensures var chain', n := Insert(chain, Place(chain, a) + 1, x), Ranks(chain, kind)[a];
      && Elements(chain', kind) == Elements(chain, kind)
      && Ranks(chain', kind) == Ranks(chain, kind)[x := n + if IsElement(kind, a) then 1 else 0]
      && BehindNow(chain, chain', a, x)
  {
    var i := AfterPlace(chain, kind, head, a);
    LinkMarkerAt(chain, kind, head, i + 1, x);
    InsertedBehind(chain, head, |kind|, a, x);
  }

  /** A marker without a rank is not linked, and the nodes with a rank are those that are. */
  lemma MarkerMayBeLinked(
      succ: seq<SWord>, pred: seq<PWord>, chain: seq<nat>, kind: seq<Kind>, head: nat, a: nat, x: nat)
    requires Spelled(succ, pred, chain, head) && |succ| == |pred| == |kind| && OneHead(kind, head)
    requires 0 < x < |kind| && x !in Ranks(chain, kind)
    ensures x !in chain && pred[x] == PNIL && (a in chain <==> a in Ranks(chain, kind))
  {
    RankedIsLinked(chain, kind, x);
    RankedIsLinked(chain, kind, a);
    LinkedByPred(succ, pred, chain, head, x);
  }

  /** A marker that comes right before `b`. */
  lemma MarkerAhead(chain: seq<nat>, kind: seq<Kind>, head: nat, b: nat, x: nat)
    requires Chain(chain, head, |kind|) && OneHead(kind, head) && b in Ranks(chain, kind)
    requires x !in chain && 0 < x < |kind| && kind[x].Iterator?
    ensures b in chain && 0 < PlaceBefore(chain, b) < |chain|
    ensures var chain' := Insert(chain, PlaceBefore(chain, b), x);
      && Elements(chain', kind) == Elements(chain, kind)
      && Ranks(chain', kind) ==
         Ranks(chain, kind)[x := if b == head then |Elements(chain, kind)| else Ranks(chain, kind)[b]]
      && (b != head ==> AheadNow(chain, chain', b, x))
  {
    var i := UntilPlace(chain, kind, head, b);
    LinkMarkerAt(chain, kind, head, i, x);
    if b != head {
      RankedIsLinked(chain, kind, b);
      InsertedAhead(chain, head, |kind|, b, x);
    }
  }

  /** The heap of list nodes, addressed from 1, with the fields of `elem`. */
  class Heap {
    var succ: seq<SWord>
    var pred: seq<PWord>
    var links: seq<nat>      // link_count_
    var linking: seq<bool>   // linking_
    const kind: seq<Kind>    // type_
    const head: nat          // data_, the node that stands for the list
    ghost var stack: seq<nat>  // handles held by running operations
    ghost var chain: seq<nat>  // the linked nodes in order, from head to head

    /** A list without elements: the head names itself twice. */
    constructor (kind: seq<Kind>, head: nat)
      requires OneHead(kind, head)
      ensures this.kind == kind && this.head == head
      ensures Valid() && Quiet() && chain == [head, head] && Items() == [] && links[head] == 2
    {
      this.kind, this.head := kind, head;
      var nils, nones := seq(|kind|, i => SNIL), seq(|kind|, i => PNIL);
      succ := nils[head := SWord(head, false, false)];
      pred := nones[head := PWord(head, false)];
      links := seq(|kind|, i => if i == head then 2 else 0);
      linking := seq(|kind|, i => false);
      stack, chain := seq(|kind|, i => 0), [head, head];
      new;
      forall y | 0 < y < |kind|
        ensures links[y] == Sum(succ, ToSucc(y)) + Sum(pred, ToPred(y)) + stack[y]
      {
        SumZero(nils, ToSucc(y));
        SumZero(nones, ToPred(y));
        SumUpdate(nils, head, SWord(head, false, false), ToSucc(y));
        SumUpdate(nones, head, PWord(head, false), ToPred(y));
      }
      NewList(succ, pred, head);
      assert Sized() && Counted();
      assert chain[1..] == [head] && Elements([head], kind) == [];
    }

    /** Between operations the words spell the chain; predecessor words may lag behind. */
    ghost predicate Valid()
      reads this
    {
      Sized() && Counted() && OneHead(kind, head) && Spelled(succ, pred, chain, head)
    }

    /** The words spell the line `l`, some nodes of which other threads are unlinking. */
    ghost predicate Spelling(l: Line)
      reads this
    {
      Sized() && Counted() && OneHead(kind, head) && Spells(succ, pred, l, head)
    }

    /** The elements of the list in order. */
    ghost function Items(): seq<nat>
      reads this`chain
    {
      Elements(chain, kind)
    }

    /** The number of elements before each linked node. */
    ghost function RankOf(): map<nat, nat>
      reads this`chain
    {
      Ranks(chain, kind)
    }

    /** No operation is in progress: nobody holds a handle or is linking a node. */
    ghost predicate Quiet()
      reads this`stack, this`linking
    {
      forall y {:trigger stack[y]} {:trigger linking[y]} :: 0 < y < |stack| && y < |linking| ==>
        stack[y] == 0 && !linking[y]
    }

    ghost predicate Sized()
      reads this
    {
      && 1 <= |kind| && |succ| == |pred| == |links| == |linking| == |stack| == |kind|
      && (forall y :: 0 <= y < |succ| ==> succ[y].ptr < |kind| && pred[y].ptr < |kind|)
    }

    /** Link-count law: successor words, predecessor words and handles that refer to a node. */
    ghost predicate Counted()
      requires Sized()
      reads this
    {
      forall y :: 0 < y < |kind| ==> links[y] == Sum(succ, ToSucc(y)) + Sum(pred, ToPred(y)) + stack[y]
    }

    // -------------------------------------------------------------- words and handles

    /** Stores a successor word: acquires the new target, releases the old one. */
    method StoreSucc(x: nat, w: SWord)
      requires Sized() && Counted() && 0 < x < |kind| && w.ptr < |kind|
      modifies this`succ, this`links
      ensures Sized() && Counted() && succ == old(succ)[x := w]
    {
      var was := succ[x].ptr;
      assert was != 0 ==> 1 <= links[was] by {
        if was != 0 {
          SumNonNegative(pred, ToPred(was));
          SumDominates(succ, x, ToSucc(was));
        }
      }
      forall y | 0 < y < |kind|
        ensures Sum(succ[x := w], ToSucc(y)) == Sum(succ, ToSucc(y)) - ToSucc(y)(succ[x]) + ToSucc(y)(w)
      {
        SumUpdate(succ, x, w, ToSucc(y));
      }
      if w.ptr != 0 {
        links := links[w.ptr := links[w.ptr] + 1];
      }
      if was != 0 {
        links := links[was := links[was] - 1];
      }
      succ := succ[x := w];
    }

    /** Stores a predecessor word: acquires the new target, releases the old one. */
    method StorePred(x: nat, w: PWord)
      requires Sized() && Counted() && 0 < x < |kind| && w.ptr < |kind|
      modifies this`pred, this`links
      ensures Sized() && Counted() && pred == old(pred)[x := w]
    {
      var was := pred[x].ptr;
      assert was != 0 ==> 1 <= links[was] by {
        if was != 0 {
          SumNonNegative(succ, ToSucc(was));
          SumDominates(pred, x, ToPred(was));
        }
      }
      forall y | 0 < y < |kind|
        ensures Sum(pred[x := w], ToPred(y)) == Sum(pred, ToPred(y)) - ToPred(y)(pred[x]) + ToPred(y)(w)
      {
        SumUpdate(pred, x, w, ToPred(y));
      }
      if w.ptr != 0 {
        links := links[w.ptr := links[w.ptr] + 1];
      }
      if was != 0 {
        links := links[was := links[was] - 1];
      }
      pred := pred[x := w];
    }

    method Hold(x: nat)
      requires Sized() && Counted() && 0 < x < |kind|
      modifies this`links, this`stack
      ensures Sized() && Counted() && stack == old(stack)[x := old(stack[x]) + 1]
    {
      links, stack := links[x := links[x] + 1], stack[x := stack[x] + 1];
    }

    method Release(x: nat)
      requires Sized() && Counted() && 0 < x < |kind| && 0 < stack[x]
      modifies this`links, this`stack
      ensures Sized() && Counted() && stack == old(stack)[x := old(stack[x]) - 1]
    {
      SumNonNegative(succ, ToSucc(x));
      SumNonNegative(pred, ToPred(x));
      links, stack := links[x := links[x] - 1], stack[x := stack[x] - 1];
    }

    /** When no word names a node, its link count is the number of handles on it. */
    lemma CountOfUnnamed(x: nat)
      requires Sized() && Counted() && 0 < x < |kind|
      requires forall y :: 0 <= y < |kind| ==> succ[y].ptr != x && pred[y].ptr != x
      ensures links[x] == stack[x]
    {
      SumZero(succ, ToSucc(x));
      SumZero(pred, ToPred(x));
    }

    /** When the link count of a node is the number of handles on it, no word names it. */
    lemma UnnamedByCount(x: nat)
      requires Sized() && Counted() && 0 < x < |kind| && links[x] <= stack[x]
      ensures forall y :: 0 <= y < |kind| ==> succ[y].ptr != x && pred[y].ptr != x
    {
      SumNonNegative(succ, ToSucc(x));
      SumNonNegative(pred, ToPred(x));
      forall y | 0 <= y < |kind|
        ensures succ[y].ptr != x && pred[y].ptr != x
      {
        SumDominates(succ, y, ToSucc(x));
        SumDominates(pred, y, ToPred(x));
      }
    }

    // -------------------------------------------------------------- helping

    /**
     * Marks `x` as unlinked from `a`, or finds that it is marked already: tells what its word names.
     * An unmarked word that lags behind is replaced on the second round.
     */
    method MarkUnlinked(a: nat, x: nat) returns (ra: nat)
      requires Sized() && Counted() && 0 < a < |kind| && 0 < x < |kind| && pred[x] != PWord(0, true)
      modifies this`pred, this`links
      ensures Sized() && Counted() && ra < |kind|
      ensures if old(pred[x]).ptr == 0 then ra == 0 && pred == old(pred)
              else ra == (if old(pred[x]).m then old(pred[x]).ptr else a) && pred == old(pred)[x := PWord(ra, true)]
    {
      var xp := PWord(a, false);
      while pred[x] != xp && !xp.m
        invariant pred == old(pred) && Sized() && Counted()
        invariant xp == PWord(a, false) || xp == pred[x]
        invariant xp == pred[x] ==> xp.ptr != 0
        decreases pred[x] != xp
      {
        xp := pred[x];
        if xp.ptr == 0 {
          return 0;
        }
      }
      if xp.m {
        ra := xp.ptr;
        assert pred[x := PWord(ra, true)] == pred;
      } else {
        StorePred(x, PWord(a, true));
        ra := a;
      }
    }

    /** Announces that x.succ is about to move; a successful exchange leaves the local copy behind. */
    method AnnounceLeaving(x: nat) returns (xs: SWord)
      requires Sized() && Counted() && 0 < x < |kind|
      modifies this`succ, this`links
      ensures Sized() && Counted() && succ == Announced(old(succ), x) && xs == succ[x]
    {
      xs := succ[x];
      assert succ[x := xs] == succ;
      while xs.ptr != 0 && !xs.d
        invariant Sized() && Counted()
        invariant succ == old(succ) || succ == Announced(old(succ), x)
        invariant xs == old(succ[x]) || xs == succ[x]
        invariant xs.d || xs.ptr == 0 ==> xs == succ[x]
        decreases !xs.d, succ[x] == xs
      {
        if succ[x] == xs {
          StoreSucc(x, xs.(d := true));
        } else {
          xs := succ[x];
        }
      }
    }

    /** Moves the predecessor word of `b` back over `x`, then makes `a` skip `x`, keeping the D mark of `a`. */
    method SkipNode(a: nat, x: nat, b: nat) returns (rb: SWord)
      requires Sized() && Counted() && 0 < a < |kind| && 0 < x < |kind| && 0 < b < |kind|
      modifies this`succ, this`pred, this`links
      ensures Sized() && Counted() && rb.ptr < |kind|
      ensures Aided(succ, pred, a, rb) == Skipped(old(succ), old(pred), a, x, b)
    {
      if pred[b] == PWord(x, false) {
        StorePred(b, PWord(a, false));
      } else if pred[b] == PWord(x, true) {
        StorePred(b, PWord(a, true));
      }
      var asx := SWord(x, true, false);
      while succ[a] != asx && asx.ptr == x && asx.s
        invariant asx == SWord(x, true, false) || asx == succ[a]
        decreases succ[a] != asx
      {
        asx := succ[a];
      }
      rb := asx;
      if asx.ptr == x && asx.s {
        rb := SWord(b, false, asx.d);
        StoreSucc(a, rb);
      }
      StoreSucc(x, SNIL);
    }

    /**
     * `unlink_aid_`: completes the unlinking of `x`, which `a` has S-marked, and first of every
     * S-marked node behind it. Returns the predecessor and the new successor word of it. From any
     * words from which the call ends, it does what `Aid` says.
     */
    method UnlinkAid(a: nat, x: nat, ghost fuel: nat) returns (ra: nat, rb: SWord)
      requires Sized() && Counted() && 0 < a < |kind| && 0 < x < |kind| && Aid(succ, pred, a, x, fuel).Aided?
      modifies this`succ, this`pred, this`links
      ensures Sized() && Counted() && rb.ptr < |kind|
      ensures Aided(succ, pred, ra, rb) == Aid(old(succ), old(pred), a, x, fuel)
      decreases fuel
    {
      ra := MarkUnlinked(a, x);
      if ra == 0 {
        return 0, SNIL;
      }
      var xs := AnnounceLeaving(x);
      xs := AidBehind(x, xs, fuel - 1);
      if xs.ptr == 0 {
        return ra, SNIL;
      }
      rb := SkipNode(ra, x, xs.ptr);
    }

    /** The loop of `unlink_aid_`: completes the S-marked nodes behind `x`, of whose word `was` is a copy. */
    method AidBehind(x: nat, was: SWord, ghost fuel: nat) returns (xs: SWord)
      requires Sized() && Counted() && 0 < x < |kind| && was.ptr < |kind| && Cascade(succ, pred, x, was, fuel).Aided?
      modifies this`succ, this`pred, this`links
      ensures Sized() && Counted() && xs.ptr < |kind|
      ensures Aided(succ, pred, x, xs) == Cascade(old(succ), old(pred), x, was, fuel)
      decreases fuel
    {
      xs := was;
      ghost var left: nat, done := fuel, Cascade(succ, pred, x, xs, fuel);
      while xs.ptr != 0 && xs.s
        invariant Sized() && Counted() && xs.ptr < |kind| && Cascade(succ, pred, x, xs, left) == done && left <= fuel
        decreases left
      {
        var ignored;
        ignored, xs := UnlinkAid(x, xs.ptr, left - 1);
        if xs.ptr == 0 {
          xs := succ[x];
        }
        left := left - 1;
      }
    }

    // -------------------------------------------------------------- neighbours

    /** `unlink_aid_` as the operations call it: the node `x` behind place `k` and the run behind it are completed. */
    method Complete(a: nat, x: nat, ghost l: Line, ghost k: nat) returns (rb: SWord, ghost l': Line)
      requires Spelling(l) && On(l, k) && k + 1 < |l.nodes| && l.nodes[k] == a
      requires l.nodes[Next(l, k)] == x && x in l.dead
      modifies this`succ, this`pred, this`links
      ensures Spelling(l') && l' == CutRun(l, k) && Helped(l, l') && l'.dead < l.dead && Next(l', k) == RunEnd(l, k)
      ensures Framed(old(succ), old(pred), succ, pred, l, l', {}) && TightCuts(pred, l, l')
      ensures succ == HelpedSucc(old(succ), a, RunBehind(l, k), l.nodes[RunEnd(l, k)])
      ensures pred == HelpedPred(old(pred), a, RunBehind(l, k), l.nodes[RunEnd(l, k)])
      ensures rb == succ[a] && !rb.s && rb.ptr == l.nodes[RunEnd(l, k)] && On(l', k) && On(l', RunEnd(l, k))
    {
      RunIs(succ, pred, l, head, k);
      RunFirst(succ, pred, l, head, k);
      SpellsHelp(succ, pred, l, head, k);
      HelpFrame(succ, pred, l, head, k);
      HelpIsTight(succ, pred, l, head, k);
      l' := CutRun(l, k);
      CutRunNodes(l, k);
      RunNodes(l, head, |succ|, k);
      RunAided(succ, pred, a, RunBehind(l, k), l.nodes[RunEnd(l, k)]);
      var ra;
      ra, rb := UnlinkAid(a, x, 2 * |RunBehind(l, k)|);
    }

    /** `succ_`: the successor of the node at place `i`, after completing those that are being unlinked behind it. */
    method Succ(x: nat, ghost l: Line, ghost i: nat) returns (r: nat, ghost l': Line)
      requires Spelling(l) && i + 1 < |l.nodes| && l.nodes[i] == x
      modifies this`succ, this`pred, this`links
      ensures Spelling(l') && Helped(l, l') && Framed(old(succ), old(pred), succ, pred, l, l', {})
      ensures if On(l, i) then l' == CutRun(l, i) && r == l.nodes[RunEnd(l, i)] && Next(l', i) == RunEnd(l, i)
              else l' == l && r == old(succ[x]).ptr && succ == old(succ) && pred == old(pred)
    {
      assert SuccOk(succ, pred, l, i);
      l' := l;
      var s := succ[x];
      RunNodes(l, head, |succ|, i);
      while s.ptr != 0 && s.s
        invariant Spelling(l') && Helped(l, l') && Framed(old(succ), old(pred), succ, pred, l, l', {})
        invariant s == succ[x]
        invariant s.s ==> On(l, i) && l' == l && succ == old(succ) && pred == old(pred)
        invariant On(l, i) && !s.s ==>
          l' == CutRun(l, i) && s.ptr == l.nodes[RunEnd(l, i)] && Next(l', i) == RunEnd(l, i)
        invariant !On(l, i) ==> l' == l && succ == old(succ) && pred == old(pred)
        decreases s.s
      {
        s, l' := Complete(x, s.ptr, l, i);
      }
      r := s.ptr;
    }

    /** `compare_exchange` on the predecessor word of `x`: `q` is what the caller's copy `p` is afterwards. */
    method ExchangePred(x: nat, p: PWord, w: PWord) returns (q: PWord)
      requires Sized() && Counted() && 0 < x < |kind| && w.ptr < |kind|
      modifies this`pred, this`links
      ensures Sized() && Counted()
      ensures if old(pred[x]) == p then q == p && pred == old(pred)[x := w] else q == old(pred[x]) && pred == old(pred)
    {
      if pred[x] == p {
        StorePred(x, w);
        q := p;
      } else {
        q := pred[x];
      }
    }

    /** A round of `pred_` that moves the unmarked word of `x` back from `p`; the copy `p` follows in the next round. */
    method MoveBack(x: nat, p: PWord, ghost l: Line, ghost i: nat, ghost j: nat) returns (q: PWord)
      requires Spelling(l) && j < i < |l.nodes| && On(l, i) && l.nodes[i] == x && l.nodes[j] == p.ptr
      requires Aims(succ, pred, l, i, p) && Passed(succ, pred, x, p.ptr) && (On(l, j) ==> Next(l, j) == i)
      modifies this`pred, this`links
      ensures Spelling(l) && Framed(old(succ), old(pred), succ, pred, l, l, {x})
      ensures Aims(succ, pred, l, i, q) && pred == old(pred)[x := pred[x]]
      ensures Distance(succ, l, i, pred[x].ptr) < Distance(succ, l, i, old(pred[x]).ptr)
        || (pred == old(pred) && q == pred[x] != p)
    {
      MovedBack(succ, pred, l, head, i, j);
      var t := pred[p.ptr].ptr;
      SpellsMove(succ, pred, l, head, i, t);
      StoredFrame(succ, pred, l, x, PWord(t, false));
      StoredFrame(succ, pred, l, x, pred[x]);
      assert pred[x := pred[x]] == pred;
      assert p.ptr != x;
      q := ExchangePred(x, p, PWord(t, p.m));
    }

    /** A round of `pred_` that moves the word of `x` forward from `p` to `b`, unless it is no longer `p`. */
    method MoveForward(x: nat, p: PWord, b: nat, ghost l: Line, ghost i: nat, ghost j: nat) returns (q: PWord)
      requires Spelling(l) && j < i < |l.nodes| && l.nodes[i] == x && l.nodes[j] == p.ptr && !p.m
      requires succ[p.ptr].ptr == b && b != 0 && b != x && !succ[p.ptr].s
      requires if On(l, i) then Aims(succ, pred, l, i, p) else pred[x].m
      modifies this`pred, this`links
      ensures Spelling(l) && Framed(old(succ), old(pred), succ, pred, l, l, {x})
      ensures if On(l, i) then Aims(succ, pred, l, i, q) else pred == old(pred) && q == pred[x]
      ensures pred == old(pred)[x := pred[x]]
      ensures On(l, i) ==>
        || Distance(succ, l, i, pred[x].ptr) < Distance(succ, l, i, old(pred[x]).ptr)
        || (pred == old(pred) && q == pred[x] != p)
    {
      StoredFrame(succ, pred, l, x, pred[x]);
      assert pred[x := pred[x]] == pred;
      if On(l, i) {
        MovedForward(succ, pred, l, head, i, j);
        SpellsMove(succ, pred, l, head, i, b);
        StoredFrame(succ, pred, l, x, PWord(b, false));
      }
      q := ExchangePred(x, p, PWord(b, false));
      if q == p {
        q := PWord(b, false);
      }
    }

    /** The first part of a round of `pred_`: completes what is being unlinked behind `p`, but for `x` itself. */
    method HelpAhead(x: nat, p: PWord, ghost l: Line, ghost i: nat, ghost j: nat) returns (ps: SWord, ghost l': Line)
      requires Spelling(l) && j < i < |l.nodes| && On(l, i) && l.nodes[i] == x && l.nodes[j] == p.ptr
      requires Aims(succ, pred, l, i, p)
      modifies this`succ, this`pred, this`links
      ensures Spelling(l') && Helped(l, l') && Framed(old(succ), old(pred), succ, pred, l, l', {})
      ensures TightCuts(pred, l, l') && ps == succ[p.ptr] && (ps.s ==> ps.ptr == x)
      ensures if On(l', i) then Aims(succ, pred, l', i, p)
        else pred[x].m && ps.ptr != 0 && ps.ptr != x && l'.dead != l.dead
      ensures l'.dead == l.dead ==> l' == l && succ == old(succ) && pred == old(pred)
    {
      WordsBefore(succ, pred, l, head, i, j);
      l' := l;
      ps := succ[p.ptr];
      if ps.ptr != 0 && ps.ptr != x && ps.s {
        ps, l' := Complete(p.ptr, ps.ptr, l, j);
        AimsAhead(old(succ), old(pred), succ, pred, l, l', head, i, p);
      }
    }

    /** A round of `pred_` with an unmarked word. */
    method PredRound(x: nat, p: PWord, ghost l: Line, ghost i: nat)
      returns (done: bool, q: PWord, ghost l': Line, ghost j: nat)
      requires Spelling(l) && 0 < i < |l.nodes| && On(l, i) && l.nodes[i] == x && Aims(succ, pred, l, i, p)
      modifies this`succ, this`pred, this`links
      ensures Spelling(l') && Helped(l, l') && Framed(old(succ), old(pred), succ, pred, l, l', {x})
      ensures TightCuts(pred, l, l')
      ensures done ==>
        && j < i && q.ptr == l.nodes[j] && On(l', i) && On(l', j) && Next(l', j) == i && !pred[q.ptr].m
        && pred[x] == q && !q.m
      ensures !done ==> if On(l', i) then Aims(succ, pred, l', i, q) else q.m && q == pred[x]
      ensures !done && l'.dead == l.dead ==>
        && On(l', i) && l' == l && succ == old(succ)
        && (|| Distance(succ, l, i, pred[x].ptr) < Distance(succ, l, i, old(pred[x]).ptr)
            || (pred == old(pred) && q == pred[x] != p))
    {
      j := Place(l.nodes, p.ptr);
      PlaceBound(l, i, p.ptr);
      var ps;
      ps, l' := HelpAhead(x, p, l, i, j);
      FramedMore(old(succ), old(pred), succ, pred, l, l', {}, {x});
      ghost var succ1, pred1 := succ, pred;
      done, q := RoundEnd(x, p, ps, l', i, j);
      FramedFurther(old(succ), old(pred), succ1, pred1, succ, pred, l, l', l', {x});
      TightElsewhere(pred1, pred, l, l', x);
    }

    /** The second part of the round: moves the word, or has arrived. */
    method RoundEnd(x: nat, p: PWord, ps: SWord, ghost l: Line, ghost i: nat, ghost j: nat)
      returns (done: bool, q: PWord)
      requires Spelling(l) && j < i < |l.nodes| && l.nodes[i] == x && l.nodes[j] == p.ptr && !p.m
      requires ps == succ[p.ptr] && (ps.s ==> ps.ptr == x)
      requires if On(l, i) then Aims(succ, pred, l, i, p) else pred[x].m && ps.ptr != 0 && ps.ptr != x
      modifies this`pred, this`links
      ensures Spelling(l) && Framed(old(succ), old(pred), succ, pred, l, l, {x})
      ensures if On(l, i) then pred == old(pred)[x := pred[x]] else pred == old(pred)
      ensures done ==>
        On(l, i) && On(l, j) && Next(l, j) == i && q == p == pred[x] && !pred[q.ptr].m
      ensures !done ==> if On(l, i) then Aims(succ, pred, l, i, q) else q.m && q == pred[x]
      ensures !done && On(l, i) ==>
        (|| Distance(succ, l, i, pred[x].ptr) < Distance(succ, l, i, old(pred[x]).ptr)
         || (pred == old(pred) && q == pred[x] != p))
    {
      WordsBefore(succ, pred, l, head, i, j);
      done, q := false, p;
      if ps.ptr == 0 {
        // p was unlinked
        assert PredOk(pred, l, j);
        q := MoveBack(x, p, l, i, j);
      } else if ps.ptr != x {
        q := MoveForward(x, p, ps.ptr, l, i, j);
      } else {
        Arrived(succ, pred, l, head, i, j);
        if pred[p.ptr].m {
          q := MoveBack(x, p, l, i, j);
        } else {
          StoredFrame(succ, pred, l, x, pred[x]);
          assert pred[x := pred[x]] == pred;
          done := true;
        }
      }
    }

    /**
     * The rounds of `pred_` with a marked word, that of a node which is unlinked or being unlinked: it
     * moves back to the first node that is not marked itself. For a node that is still in the chain
     * the documented invariants survive that exactly when its predecessor is not marked.
     */
    method PredBack(x: nat, ghost l0: Line, ghost l: Line, ghost i: nat) returns (r: nat, ghost j: nat)
      requires Spelling(l) && 0 < i < |l.nodes| && l.nodes[i] == x && pred[x].m
      modifies this`pred, this`links
      ensures Sized() && Counted() && j < i && r == l.nodes[j] && On(l, j) && !pred[r].m
      ensures pred == old(pred)[x := PWord(r, true)]
      ensures old(pred[x]).ptr < |pred|
      ensures Spells(succ, pred, l, head) <==> x in l.gone || !old(pred)[old(pred[x]).ptr].m
      ensures x !in l.gone ==> Strayed(old(pred), pred, l)
      ensures Helped(l0, l) && TightCuts(old(pred), l0, l) && x !in l0.gone ==> NoneLive(l, j, i)
    {
      ghost var was, moved := pred, false;
      ghost var tight := Helped(l0, l) && TightCuts(pred, l0, l) && x !in l0.gone;
      j := RetreatStart(succ, pred, l, head, i);
      ghost var m: nat := j;
      if tight {
        MarkedIsInside(succ, pred, l, head, i);
        StepBackTight(succ, pred, l0, l, head, i, m);
      }
      var p := pred[x];
      while pred[p.ptr].m
        invariant Sized() && Counted() && Retreats(succ, was, pred, l, head, i, p, j, m, moved)
        invariant tight ==> NoneLive(l, m, i) && l.nodes[m] !in l0.gone
        decreases m, j != m
      {
        p, j, m, moved := BackRound(x, p, l0, l, i, was, j, m, moved, tight);
      }
      r := p.ptr;
      RetreatEnd(succ, was, pred, l, head, i, p, j, m, moved);
      if x !in l.gone {
        MovedBackStrays(succ, was, was, l, head, i, j);
      }
    }

    /** One of these rounds: the word moves on from where it is, or the copy `p` follows it. */
    method BackRound(x: nat, p: PWord, ghost l0: Line, ghost l: Line, ghost i: nat, ghost was: seq<PWord>, ghost j: nat,
                     ghost m: nat, ghost moved: bool, ghost tight: bool)
      returns (q: PWord, ghost j': nat, ghost m': nat, ghost moved': bool)
      requires Sized() && Counted() && Retreats(succ, was, pred, l, head, i, p, j, m, moved) && l.nodes[i] == x
      requires p.ptr < |pred| && pred[p.ptr].m && (tight ==> Helped(l0, l) && TightCuts(was, l0, l))
      requires tight ==> NoneLive(l, m, i) && l.nodes[m] !in l0.gone
      modifies this`pred, this`links
      ensures Sized() && Counted() && Retreats(succ, was, pred, l, head, i, q, j', m', moved')
      ensures tight ==> NoneLive(l, m', i) && l.nodes[m'] !in l0.gone
      ensures m' < m || (m' == m && j != m && j' == m)
    {
      var pp := pred[p.ptr];
      j', m', moved' := m, m, moved;
      if j == m {
        m' := RetreatFurther(succ, was, pred, l, head, i, p, j, moved);
        if tight {
          StepBackTight(succ, was, l0, l, head, j, m');
        }
        moved' := true;
      }
      q := ExchangePred(x, p, PWord(pp.ptr, p.m));
    }

    /**
     * `pred_` of the node `x` at place `i`. An unmarked word is moved until it names the direct
     * predecessor, over nodes that were cut out, and completing what is being unlinked on the way. The
     * node found is in the chain, and not marked, but it may be S-marked itself. A marked word moves
     * back only.
     */
    method Pred(x: nat, ghost l: Line, ghost i: nat) returns (r: nat, ghost l': Line, ghost j: nat)
      requires Spelling(l) && 0 < i < |l.nodes| && l.nodes[i] == x
      modifies this`succ, this`pred, this`links
      ensures Sized() && Counted() && Helped(l, l') && Framed(old(succ), old(pred), succ, pred, l, l', {x})
      ensures j < i && r == l.nodes[j] && On(l', j) && 0 < r < |pred| && !pred[r].m
      ensures x !in l.gone ==> NoneLive(l', j, i)
      ensures !old(pred[x]).m ==>
        Spelling(l') && if x in l'.gone then pred[x] == PWord(r, true)
        else Next(l', j) == i && pred[x] == PWord(r, false)
      ensures old(pred[x]).m ==>
        && l' == l && succ == old(succ) && pred == old(pred)[x := PWord(r, true)] && old(pred[x]).ptr < |pred|
        && (Spelling(l) <==> x in l.gone || !old(pred)[old(pred[x]).ptr].m)
        && (x !in l.gone ==> Strayed(old(pred), pred, l))
    {
      WordsOf(succ, pred, l, head, i);
      l' := l;
      var p := pred[x];
      if p.m {
        r, j := PredBack(x, l, l, i);
        StoredFrame(old(succ), old(pred), l, x, PWord(r, true));
        return;
      }
      var done: bool;
      done, r, l', j := PredForward(x, l, i);
      if done {
        NextCleared(l', j);
      } else {
        ghost var succ1, pred1 := succ, pred;
        r, j := PredBack(x, l, l', i);
        StoredFrame(succ1, pred1, l', x, PWord(r, true));
        FramedFurther(old(succ), old(pred), succ1, pred1, succ, pred, l, l', l', {x});
      }
    }

    /** The rounds of `pred_` with an unmarked word; they end early when `x` is cut out on the way. */
    method PredForward(x: nat, ghost l: Line, ghost i: nat) returns (done: bool, r: nat, ghost l': Line, ghost j: nat)
      requires Spelling(l) && 0 < i < |l.nodes| && l.nodes[i] == x && !pred[x].m
      modifies this`succ, this`pred, this`links
      ensures Spelling(l') && Helped(l, l') && Framed(old(succ), old(pred), succ, pred, l, l', {x})
      ensures done ==>
        && j < i && r == l.nodes[j] && On(l', i) && On(l', j) && Next(l', j) == i && 0 < r < |pred| && !pred[r].m
        && pred[x] == PWord(r, false)
      ensures !done ==> x in l'.gone && pred[x].m
      ensures TightCuts(pred, l, l')
    {
      assert PredOk(pred, l, i);
      l' := l;
      var p := pred[x];
      done, j := false, 0;
      StoredFrame(succ, pred, l, x, p);
      assert pred[x := p] == pred;
      while !p.m && !done
        invariant Spelling(l') && Helped(l, l') && Framed(old(succ), old(pred), succ, pred, l, l', {x})
        invariant TightCuts(pred, l, l')
        invariant p.m ==> !done && x in l'.gone && pred[x].m
        invariant !p.m && !done ==> On(l', i) && Aims(succ, pred, l', i, p)
        invariant done ==>
          && j < i && p.ptr == l.nodes[j] && On(l', i) && On(l', j) && Next(l', j) == i && !pred[p.ptr].m
          && pred[x] == p && !p.m
        decreases l'.dead, !done, Distance(succ, l', i, pred[x].ptr), p != pred[x]
      {
        ghost var succ1, pred1, l1 := succ, pred, l';
        done, p, l', j := PredRound(x, p, l', i);
        SearchFurther(old(succ), old(pred), succ1, pred1, succ, pred, l, l1, l', x);
      }
      r := p.ptr;
    }

    // -------------------------------------------------------------- linking

    /** `x` may be linked: nobody else is linking it, and it is not linked. */
    predicate Linkable(x: nat)
      requires x < |linking| && x < |pred|
      reads this`linking, this`pred
    {
      !linking[x] && pred[x] == PNIL
    }

    /** `link_` between `a` and `b` will fail, whatever the other words: `a` does not name `b` without a mark. */
    ghost predicate Refusing(a: nat, x: nat, b: nat)
      reads this
    {
      && Sized() && Counted() && 0 < a < |kind| && 0 < x < |kind| && 0 < b < |kind|
      && succ[a] != SWord(b, false, false) && (pred[x] == PNIL ==> succ[x] == SNIL && x != a)
    }

    /** `link_`: links `x` between `a`, at place `k`, and `b`; on failure every word of the heap is as before. */
    method Link(a: nat, x: nat, b: nat, ghost l: Line, ghost k: nat) returns (r: XLink, ghost l': Line)
      requires k + 1 < |l.nodes| && l.nodes[k] == a && 0 < b < |kind| && 0 < x < |kind|
      requires Spelling(l) || Refusing(a, x, b)
      modifies this`succ, this`pred, this`links, this`linking
      ensures Sized() && Counted() && (old(Spelling(l)) ==> Spelling(l')) && linking == old(linking)
      ensures r == if !old(Linkable(x)) then XTwice
                   else if old(succ[a]) != SWord(b, false, false) then LinkError(old(succ), old(pred), a, b)
                   else XOk
      ensures r == XOk ==> On(l, k) && x !in l.nodes && Lives(l, x) && Lives(l, b) && b == l.nodes[Next(l, k)]
      ensures r == XOk ==> Helped(InsertAt(l, k, x), l') && pred[b] == PWord(x, false)
      ensures r == XOk ==>
        Framed(old(succ)[x := SWord(b, false, false)][a := SWord(x, false, false)], old(pred)[x := PWord(a, false)],
               succ, pred, InsertAt(l, k, x), l', {b})
      ensures r != XOk ==> l' == l && succ == old(succ) && pred == old(pred)
    {
      l' := l;
      if linking[x] {
        return XTwice, l;
      }
      linking := linking[x := true];
      if pred[x] != PNIL {
        linking := linking[x := false];
        return XTwice, l;
      }
      r, l' := LinkLocked(a, x, b, l, k);
      linking := linking[x := false];
    }

    /** The part of `link_` under the lock of `x`, which is not linked. */
    method LinkLocked(a: nat, x: nat, b: nat, ghost l: Line, ghost k: nat) returns (r: XLink, ghost l': Line)
      requires k + 1 < |l.nodes| && l.nodes[k] == a && 0 < b < |kind| && 0 < x < |kind|
      requires (Spelling(l) || Refusing(a, x, b)) && linking[x] && pred[x] == PNIL
      modifies this`succ, this`pred, this`links
      ensures Sized() && Counted() && (old(Spelling(l)) ==> Spelling(l'))
      ensures r == if old(succ[a]) != SWord(b, false, false) then LinkError(old(succ), old(pred), a, b) else XOk
      ensures r == XOk ==> On(l, k) && x !in l.nodes && Lives(l, x) && Lives(l, b) && b == l.nodes[Next(l, k)]
      ensures r == XOk ==> Helped(InsertAt(l, k, x), l') && pred[b] == PWord(x, false)
      ensures r == XOk ==>
        Framed(old(succ)[x := SWord(b, false, false)][a := SWord(x, false, false)], old(pred)[x := PWord(a, false)],
               succ, pred, InsertAt(l, k, x), l', {b})
      ensures r != XOk ==> l' == l && succ == old(succ) && pred == old(pred)
    {
      l' := l;
      if Spelling(l) {
        assert Loose(succ, pred, l, x);
        WordsOf(succ, pred, l, head, k);
      }
      ghost var succ0, pred0 := succ, pred;
      // Link a and b from x.
      StorePred(x, PWord(a, false));
      StoreSucc(x, SWord(b, false, false));

      // Link x from a.
      if succ[a] == SWord(b, false, false) {
        l' := LinkFrom(a, x, b, l, k, succ0, pred0);
        r := XOk;
      } else {
        r := LinkAbort(a, x, b, succ0, pred0);
      }
    }

    /** The end of a `link_` that failed: tells why, and unlinks `x` again. */
    method LinkAbort(a: nat, x: nat, b: nat, ghost succ0: seq<SWord>, ghost pred0: seq<PWord>) returns (r: XLink)
      requires Sized() && Counted() && |succ0| == |pred0| == |kind|
      requires 0 < x < |kind| && a < |kind| && b < |kind| && a != x && succ0[x] == SNIL && pred0[x] == PNIL
      requires succ == succ0[x := SWord(b, false, false)] && pred == pred0[x := PWord(a, false)]
      modifies this`succ, this`pred, this`links
      ensures Sized() && Counted() && succ == succ0 && pred == pred0 && r == LinkError(succ0, pred0, a, b)
    {
      if succ[a].ptr == 0 {
        r := if pred[b].m then XLostAB else XLostA;
      } else if succ[a] != SWord(b, true, false) {
        r := XRetry;
      } else {
        r := if pred[a].m then XLostAB else XLostB;
      }
      StoreSucc(x, SNIL);
      StorePred(x, PNIL);
    }

    /** The middle of `link_`: makes `a` name `x`, which names `a` and `b` already. */
    method LinkFrom(a: nat, x: nat, b: nat, ghost l: Line, ghost k: nat, ghost succ0: seq<SWord>,
                    ghost pred0: seq<PWord>)
      returns (ghost l': Line)
      requires Sized() && Counted() && OneHead(kind, head) && Spells(succ0, pred0, l, head) && |succ0| == |kind|
      requires 0 < x < |kind| && 0 < b < |kind| && pred0[x] == PNIL && k + 1 < |l.nodes| && l.nodes[k] == a
      requires succ0[a] == SWord(b, false, false)
      requires succ == succ0[x := SWord(b, false, false)] && pred == pred0[x := PWord(a, false)]
      modifies this`succ, this`pred, this`links
      ensures Spelling(l') && Helped(InsertAt(l, k, x), l') && pred[b] == PWord(x, false)
      ensures On(l, k) && x !in l.nodes && Lives(l, x) && Lives(l, b) && b == l.nodes[Next(l, k)]
      ensures Framed(succ0[x := SWord(b, false, false)][a := SWord(x, false, false)], pred0[x := PWord(a, false)],
                     succ, pred, InsertAt(l, k, x), l', {b})
    {
      InsertedBetween(succ0, pred0, l, head, k, x, b);
      StoreSucc(a, SWord(x, false, false));
      l' := FixPred(a, x, b, InsertAt(l, k, x), k + 1, Next(l, k) + 1);
    }

    /** The last part of `link_`: makes `b` name `x`, repairing a word that lags behind. */
    method FixPred(a: nat, x: nat, b: nat, ghost l: Line, ghost j: nat, ghost i: nat) returns (ghost l': Line)
      requires Spelling(l) && j < i < |l.nodes| && l.nodes[i] == b && l.nodes[j] == x && Next(l, j) == i
      requires Lives(l, x) && Lives(l, b) && 0 < j
      modifies this`succ, this`pred, this`links
      ensures Spelling(l') && Helped(l, l') && pred[b] == PWord(x, false)
      ensures Framed(old(succ), old(pred), succ, pred, l, l', {b})
    {
      WordsOf(succ, pred, l, head, i);
      WordsOf(succ, pred, l, head, j);
      assert PredOk(pred, l, i);
      if pred[b] == PWord(a, false) {
        l' := l;
        assert Among(l, 0, i, x);
        SpellsMove(succ, pred, l, head, i, x);
        StoredFrame(succ, pred, l, b, PWord(x, false));
        StorePred(b, PWord(x, false));
      } else if pred[b] == PWord(a, true) {
        // Nobody was unlinking b, so its word is not marked.
        assert false;
      } else {
        var p;
        ghost var q;
        p, l', q := Pred(b, l, i);
        NextCleared(l, j);
        NextIs(l', j, i);
        OneBefore(l', head, |succ|, j, q);
      }
    }

    // -------------------------------------------------------------- unlinking

    /**
     * `unlink_`: unlinks `x`, on which the caller's frames hold `expected` handles. On success the
     * link count has come down to exactly that number and the node is ready for another link. While
     * others have handles on `x`, a node outside of the chain names it, or the node behind it is being
     * unlinked, it waits for the threads concerned.
     */
    method UnlinkNode(a: nat, x: nat, expected: nat, ghost l: Line, ghost k: nat)
      returns (r: UnlinkResult, ghost l': Line)
      requires Spelling(l) && k + 1 < |l.nodes| && l.nodes[k] == a && 0 < x < |kind| && x != head
        && expected <= stack[x]
      modifies this`succ, this`pred, this`links
      ensures Sized() && Counted()
      ensures if old(succ[a]) == SWord(x, false, false)
              then r == if Free(old(succ), old(pred), l, x) && stack[x] == expected then UnlinkOk else UnlinkWaits
              else r == UnlinkRefusal(old(succ), old(pred), a, x)
      ensures r == UnlinkOk || r == UnlinkWaits ==>
        && Spelling(l') && Next(l, k) < |l.nodes| - 1 && l.nodes[Next(l, k)] == x && Lives(l, x)
        && l'.dead <= l.dead && (forall y :: y != x ==> (Lives(l', y) <==> Lives(l, y)))
      ensures r == UnlinkOk ==>
        && l'.nodes == Remove(l.nodes, Next(l, k)) && x !in l'.gone
        && succ[x] == SNIL && pred[x] == PNIL && links[x] == expected
      ensures r == UnlinkWaits ==>
        l'.nodes == l.nodes && x in l'.gone && succ[x] == SNIL && expected < links[x]
      ensures r == UnlinkOk || r == UnlinkWaits ==>
        SameOutside(old(pred), pred, l)
      ensures r == UnlinkFail || r == UnlinkRetry ==>
        if r == UnlinkRetry && Leaving(old(succ), a)
        then Helped(l, l') && Framed(old(succ), old(pred), succ, pred, l, l', {old(succ[a]).ptr})
        else l' == l && succ == old(succ) && pred == old(pred)
      ensures r == UnlinkFail || r == UnlinkRetry ==>
        Spelling(l') <==> r == UnlinkRetry && Leaving(old(succ), a) ==> Aidable(old(pred), l, old(succ[a]).ptr)
    {
      if succ[a] != SWord(x, false, false) {
        l' := l;
        r := if (succ[a].ptr == x && succ[a].s) || pred[x].m then UnlinkFail else UnlinkRetry;
        if r == UnlinkRetry && succ[a].d && succ[a].ptr != 0 {
          l' := AidPredecessor(succ[a].ptr, l, k);
        }
        return;
      }
      r, l' := CutOut(a, x, expected, l, k);
    }

    /** `unlink_` helps the unlinking of `a` before it is tried again: somebody has to link the rest past `a`. */
    method AidPredecessor(c: nat, ghost l: Line, ghost k: nat) returns (ghost l': Line)
      requires Spelling(l) && k + 1 < |l.nodes| && succ[l.nodes[k]].ptr == c && c != 0
      modifies this`succ, this`pred, this`links
      ensures Sized() && Counted() && Helped(l, l') && Framed(old(succ), old(pred), succ, pred, l, l', {c})
      ensures c < |old(pred)| && old(pred)[c].ptr < |old(pred)|
      ensures Spelling(l') <==> old(Aidable(pred, l, c))
    {
      assert SuccOk(succ, pred, l, k);
      NameOf(succ, pred, l, head, k);
      ghost var q := Place(l.nodes, c);
      WordsOf(succ, pred, l, head, q);
      var r;
      ghost var j;
      r, l', j := Pred(c, l, PlaceBefore(l.nodes, c));
    }

    /** The middle of `unlink_`: S-marks `x`, lets the helping code cut it out, and waits for those that name it. */
    method CutOut(a: nat, x: nat, expected: nat, ghost l: Line, ghost k: nat) returns (r: UnlinkResult, ghost l': Line)
      requires Spelling(l) && k + 1 < |l.nodes| && l.nodes[k] == a && 0 < x < |kind| && x != head
        && expected <= stack[x]
      requires succ[a] == SWord(x, false, false)
      modifies this`succ, this`pred, this`links
      ensures Spelling(l')
      ensures r == if Free(old(succ), old(pred), l, x) && stack[x] == expected then UnlinkOk else UnlinkWaits
      ensures Next(l, k) < |l.nodes| - 1 && l.nodes[Next(l, k)] == x && Lives(l, x)
      ensures l'.dead <= l.dead && (forall y :: y != x ==> (Lives(l', y) <==> Lives(l, y)))
      ensures r == UnlinkOk ==>
        && l'.nodes == Remove(l.nodes, Next(l, k)) && x !in l'.gone
        && succ[x] == SNIL && pred[x] == PNIL && links[x] == expected
      ensures r == UnlinkWaits ==>
        l'.nodes == l.nodes && x in l'.gone && succ[x] == SNIL && expected < links[x]
      ensures SameOutside(old(pred), pred, l)
    {
      var second;
      ghost var l2;
      second, l2 := MarkAndCut(a, x, l, k);
      ghost var n := Next(l, k);
      var lc;
      ghost var l3;
      lc, l3 := AwaitUnreferenced(x, a, second, expected, l2, k, n);
      OthersLive(l, l2, l3, x, n);
      r, l' := FinishUnlink(x, lc, expected, l3, n);
    }

    /** The start of that: after it `x` is cut out, and `a` is next to the node returned. */
    method MarkAndCut(a: nat, x: nat, ghost l: Line, ghost k: nat) returns (second: nat, ghost l': Line)
      requires Spelling(l) && k + 1 < |l.nodes| && l.nodes[k] == a && 0 < x < |kind| && x != head
      requires succ[a] == SWord(x, false, false)
      modifies this`succ, this`pred, this`links
      ensures Spelling(l') && l'.nodes == l.nodes && l'.dead <= l.dead && x in l'.gone && succ[x] == SNIL
      ensures Next(l, k) < |l.nodes| - 1 && l.nodes[Next(l, k)] == x && Lives(l, x)
      ensures forall y :: y != x ==> (Lives(l', y) <==> Lives(l, y))
      ensures On(l', k) && Next(l, k) < Next(l', k) && second == l.nodes[Next(l', k)]
      ensures Held(succ, pred, l', x) <==> !Free(old(succ), old(pred), l, x)
      ensures SameOutside(old(pred), pred, l)
    {
      ghost var l1 := MarkedAndCut(succ, pred, l, head, k, x);
      StoreSucc(a, SWord(x, true, false));
      ghost var succ1, pred1 := succ, pred;
      var rb;
      rb, l' := Complete(a, x, l1, k);
      FrameOutside(succ1, pred1, succ, pred, l1, l', x);
      second := rb.ptr;
    }

    /** What the walk of `unlink_` keeps: `l` is the line when it started. */
    ghost predicate Waiting(x: nat, l: Line, l': Line, held: bool, was: seq<PWord>)
      reads this
    {
      && Spelling(l') && Helped(l, l') && Severed(succ, pred, l, l') && SameOutside(was, pred, l)
      && 0 < x < |kind| && succ[x] == SNIL && x in l.gone && x in l.nodes && held == Held(succ, pred, l', x)
    }

    /** Where that walk stands: at place `i`, with the chain before it clear of `x`, or nowhere. */
    ghost predicate StandsAt(x: nat, l: Line, b: nat, i: nat)
      requires Spelling(l)
      reads this
    {
      b != 0 ==> 0 < i < |l.nodes| && On(l, i) && b == l.nodes[i] && Clear(pred, l, x, i)
    }

    /**
     * The loop of `unlink_`: walks from the place where `x` was towards the head, and repairs the
     * predecessor words that still name `x`, until the link count of `x` is down to `expected`.
     */
    method AwaitUnreferenced(x: nat, first: nat, second: nat, expected: nat, ghost l: Line, ghost k: nat, ghost n: nat)
      returns (lc: nat, ghost l': Line)
      requires Spelling(l) && k < n < |l.nodes| - 1 && On(l, k) && l.nodes[k] == first && l.nodes[n] == x
      requires x in l.gone && succ[x] == SNIL && n < Next(l, k) && l.nodes[Next(l, k)] == second
      modifies this`succ, this`pred, this`links
      ensures Waiting(x, l, l', old(Held(succ, pred, l, x)), old(pred)) && lc == links[x]
      ensures lc <= expected || Clear(pred, l', x, |l.nodes|)
    {
      ghost var held, was := Held(succ, pred, l, x), pred;
      var a, b, last := first, second, false;
      ghost var ka: nat, i: nat := k, Next(l, k);
      l' := l;
      ClearAtStart(succ, pred, l, head, k, n);
      lc := links[x];
      while lc > expected && !last
        invariant Waiting(x, l, l', held, was) && lc == links[x] && ka < n && a == l.nodes[ka] && a !in l.gone
        invariant if last then Clear(pred, l', x, |l.nodes|) else StandsAt(x, l', b, i)
        decreases l'.dead, !last, b == 0, |l.nodes| - i
      {
        lc, last, a, b, l', ka, i := WalkOn(x, a, b, l, l', ka, i, n, held, was);
      }
    }

    /** The body of that loop: finds the way again if it was lost, and makes a round. */
    method WalkOn(x: nat, first: nat, second: nat, ghost l: Line, ghost l1: Line, ghost k: nat, ghost j: nat,
                  ghost n: nat, ghost held: bool, ghost was: seq<PWord>)
      returns (lc: nat, last: bool, a: nat, b: nat, ghost l': Line, ghost ka: nat, ghost i: nat)
      requires Waiting(x, l, l1, held, was) && k < n < |l.nodes| - 1 && first == l.nodes[k] && first !in l.gone
      requires l.nodes[n] == x && StandsAt(x, l1, second, j)
      modifies this`succ, this`pred, this`links
      ensures Waiting(x, l, l', held, was) && lc == links[x] && ka < n && a == l.nodes[ka] && a !in l.gone
      ensures if last then Clear(pred, l', x, |l.nodes|) else StandsAt(x, l', b, i)
      ensures l'.dead <= l1.dead
      ensures last || l'.dead < l1.dead || (b != 0 && (second == 0 || j < i) && i < |l.nodes|)
    {
      a, b, ka, i := first, second, k, j;
      if b == 0 {
        a, b, ka, i := FindAgain(a, x, l, l1, ka, n);
      }
      lc, last, b, l', i := WalkRound(x, b, l, l1, i, held, was);
    }

    /** A round of that walk at the node `b`: repairs its word, and steps on unless it is the head. */
    method WalkRound(x: nat, b: nat, ghost l: Line, ghost l1: Line, ghost i: nat, ghost held: bool,
                     ghost was: seq<PWord>)
      returns (lc: nat, last: bool, r: nat, ghost l': Line, ghost i': nat)
      requires Waiting(x, l, l1, held, was) && b != 0 && StandsAt(x, l1, b, i)
      modifies this`succ, this`pred, this`links
      ensures Waiting(x, l, l', held, was) && Helped(l1, l') && lc == links[x]
      ensures if last then Clear(pred, l', x, |l.nodes|) else StandsAt(x, l', r, i')
      ensures last || l'.dead < l1.dead || (r != 0 && i < i' < |l.nodes|)
    {
      lc, l' := RepairBehind(x, b, l, l1, i, held, was);
      last, r, i' := false, 0, i;
      if kind[b].Head? {
        HeadIsLast(l', head, |succ|, i);
        last := true;
      } else {
        r, i' := NextBehind(b, l', i, x);
      }
    }

    /** When the node that the walk stood on was cut out: finds the node behind the one before `x` again. */
    method FindAgain(first: nat, x: nat, ghost l: Line, ghost l': Line, ghost k: nat, ghost n: nat)
      returns (a: nat, b: nat, ghost ka: nat, ghost i: nat)
      requires Spelling(l') && Helped(l, l') && Severed(succ, pred, l, l') && k < n < |l.nodes| - 1
      requires first == l.nodes[k] && first !in l.gone && x == l.nodes[n] && x in l'.gone
      ensures ka < n && a == l.nodes[ka] && a !in l.gone
      ensures 0 < i < |l.nodes| && On(l', i) && b == l.nodes[i] && b != 0 && Clear(pred, l', x, i)
    {
      a, b, ka := first, 0, k;
      i := k + 1;
      while b == 0
        invariant ka < n && a == l.nodes[ka] && a !in l.gone
        invariant b != 0 ==> On(l', ka) && i == Next(l', ka) && b == l.nodes[i] && On(l', i)
        decreases b == 0, ka
      {
        WordsOf(succ, pred, l', head, ka);
        b := succ[a].ptr;
        if b == 0 {
          assert SuccOk(succ, pred, l', ka) && PredOk(pred, l', ka);
          a := pred[a].ptr;
          PlaceBound(l', ka, a);
          ka := Place(l'.nodes, a);
        } else {
          i := Next(l', ka);
          NextIsOn(l', head, |succ|, ka);
        }
      }
      NextCleared(l', ka);
      ClearUpTo(succ, pred, l', head, n, i);
    }

    /** Ensures that `b` does not name `x`; asking for the predecessor once is enough. */
    method RepairBehind(x: nat, b: nat, ghost l: Line, ghost l1: Line, ghost i: nat, ghost held: bool,
                        ghost was: seq<PWord>)
      returns (lc: nat, ghost l': Line)
      requires Waiting(x, l, l1, held, was) && b != 0 && StandsAt(x, l1, b, i)
      modifies this`succ, this`pred, this`links
      ensures Waiting(x, l, l', held, was) && Helped(l1, l') && lc == links[x]
      ensures if On(l', i) then Clear(pred, l', x, i + 1) else succ[b] == SNIL && l'.dead < l1.dead
    {
      l' := l1;
      var bPred := pred[b].ptr;
      assert PredOk(pred, l1, i);
      if bPred == x {
        ghost var j;
        assert !pred[b].m by {
          assert Prev(l1, i) == 0 || On(l1, Prev(l1, i));
        }
        bPred, l', j := Pred(b, l1, i);
        RepairKept(old(succ), old(pred), succ, pred, l, l1, l', head, i, x);
      }
      lc := links[x];
    }

    /** The step of that walk: along the chain, or nil when `b` was cut out. */
    method NextBehind(b: nat, ghost l: Line, ghost i: nat, ghost x: nat) returns (r: nat, ghost i': nat)
      requires Spelling(l) && 0 < i < |l.nodes| && b == l.nodes[i] && b != head
      requires if On(l, i) then Clear(pred, l, x, i + 1) else succ[b] == SNIL
      ensures r != 0 ==> i < i' < |l.nodes| && On(l, i') && r == l.nodes[i'] && Clear(pred, l, x, i')
      ensures r != 0 <==> On(l, i)
    {
      WordsOf(succ, pred, l, head, i);
      i' := i;
      if On(l, i) {
        ClearToNext(pred, l, head, x, i);
        i' := Next(l, i);
      }
      r := succ[b].ptr;
    }

    /** The end of `unlink_`: when no word names `x` any more, its link count is what the caller expects. */
    method FinishUnlink(x: nat, lc: nat, expected: nat, ghost l: Line, ghost n: nat)
      returns (r: UnlinkResult, ghost l': Line)
      requires Spelling(l) && 0 < n < |l.nodes| - 1 && l.nodes[n] == x && x in l.gone && succ[x] == SNIL
      requires expected <= stack[x] && lc == links[x] && (lc <= expected || Clear(pred, l, x, |l.nodes|))
      modifies this`pred, this`links
      ensures Spelling(l')
      ensures r == if old(Held(succ, pred, l, x)) || expected < stack[x] then UnlinkWaits else UnlinkOk
      ensures r == UnlinkWaits ==> l' == l && pred == old(pred) && expected < links[x]
      ensures r == UnlinkOk ==> l' == ForgetAt(l, n) && pred == old(pred)[x := PNIL] && links[x] == expected
    {
      if lc > expected {
        if !Held(succ, pred, l, x) {
          forall y | 0 <= y < |kind|
            ensures succ[y].ptr != x && pred[y].ptr != x
          {
            if succ[y].ptr == x || pred[y].ptr == x {
              NamedIsHeld(succ, pred, l, head, x, y);
            }
          }
          CountOfUnnamed(x);
        }
        return UnlinkWaits, l;
      }
      UnnamedByCount(x);
      CountOfUnnamed(x);
      SpellsForget(succ, pred, l, head, n);
      l' := ForgetAt(l, n);
      StorePred(x, PNIL);
      CountOfUnnamed(x);
      r := UnlinkOk;
    }

    // -------------------------------------------------------------- the list, while others are at work on it

    /** `succ_elem_`: the next node that is no marker, and that nobody is unlinking. */
    method SuccElemAmid(x: nat, ghost l: Line, ghost i: nat) returns (r: nat, ghost l': Line, ghost j: nat)
      requires Spelling(l) && On(l, i) && i + 1 < |l.nodes| && l.nodes[i] == x
      modifies this`succ, this`pred, this`links
      ensures Spelling(l') && Helped(l, l') && Framed(old(succ), old(pred), succ, pred, l, l', {})
      ensures i < j < |l.nodes| && r == l.nodes[j] && On(l', j) && 0 < r < |kind| && !kind[r].Iterator?
      ensures Completed(l', i, j + 1) && Passing(l', kind, i, j)
    {
      r, l' := Succ(x, l, i);
      j := RunEnd(l, i);
      RunNodes(l, head, |succ|, i);
      PassOver(l', head, |succ|, kind, i, i, j);
      CutRunNodes(l, i);
      while kind[r].Iterator?
        invariant Spelling(l') && Helped(l, l') && Framed(old(succ), old(pred), succ, pred, l, l', {})
        invariant i < j < |l.nodes| && r == l.nodes[j] && On(l', j) && 0 < r < |kind|
        invariant Completed(l', i, j + 1) && Passing(l', kind, i, j)
        decreases |l.nodes| - j
      {
        ghost var succ1, pred1, l1, j1 := succ, pred, l', j;
        HeadIsInside(l', head, kind, j);
        r, l' := Succ(r, l', j);
        j := RunEnd(l1, j);
        RunNodes(l1, head, |succ|, j1);
        CutRunNodes(l1, j1);
        HelpedFurther(l, l1, l');
        FramedFurther(old(succ), old(pred), succ1, pred1, succ, pred, l, l1, l', {});
        PassOver(l', head, |succ|, kind, i, j1, j);
      }
    }

    /**
     * `pred_elem_`: the previous node that is no marker. It may be S-marked, by a thread that has not
     * marked its predecessor word yet; behind it nobody's element is left out. Traversal starts from a
     * node that its caller owns, the head or a marker of its own, which nobody else unlinks; any other
     * one will do whose predecessor can be asked for without breaking the documented invariants.
     */
    method PredElemAmid(x: nat, ghost l: Line, ghost i: nat) returns (r: nat, ghost l': Line, ghost j: nat)
      requires Spelling(l) && 0 < i < |l.nodes| && l.nodes[i] == x && Aidable(pred, l, x)
      modifies this`succ, this`pred, this`links
      ensures Spelling(l') && Helped(l, l')
      ensures j < i && r == l.nodes[j] && On(l', j) && 0 < r < |kind| && !pred[r].m && !kind[r].Iterator?
      ensures x !in l.gone ==> Passing(l', kind, j, i)
    {
      assert PredOk(pred, l, i);
      r, l', j := Pred(x, l, i);
      while kind[r].Iterator?
        invariant Spelling(l') && Helped(l, l') && j < i && r == l.nodes[j] && On(l', j) && 0 < r < |kind| && !pred[r].m
        invariant x !in l.gone ==> Passing(l', kind, j, i)
        decreases j
      {
        ghost var l1, j1 := l', j;
        HeadIsInside(l', head, kind, j);
        r, l', j := Pred(r, l', j);
        HelpedFurther(l, l1, l');
        if x !in l.gone {
          PassingHelped(l1, l', kind, j1, i);
          PassBack(l', kind, j, j1, i);
        }
      }
    }

    /** `size`: a walk that also completes everything that is being unlinked. */
    method SizeAmid(ghost l: Line) returns (size: nat, ghost l': Line)
      requires Spelling(l)
      modifies this`succ, this`pred, this`links
      ensures Spelling(l') && Helped(l, l') && size == |Members(l, kind)|
      ensures forall y :: y in l.nodes ==> y !in l'.dead
    {
      ghost var i: nat, j := 0, 0;
      size := 0;
      var e;
      e, l', j := SuccElemAmid(head, l, 0);
      FirstUsers(l', kind, 1, j);
      UsersNone(l'.nodes[..1], l', kind);
      while !kind[e].Head?
        invariant Spelling(l') && Helped(l, l') && 0 < j < |l.nodes| && e == l.nodes[j] && On(l', j) && 0 < e < |kind|
        invariant !kind[e].Iterator? && Completed(l', 0, j + 1) && size == |Users(l'.nodes[..j], l', kind)|
        decreases |l.nodes| - j
      {
        ghost var l1, j1 := l', j;
        size := size + 1;
        assert e != head;
        CountOn(l', head, kind, j);
        e, l', j := SuccElemAmid(e, l', j);
        HelpedFurther(l, l1, l');
        UsersSame(l1.nodes[..j1 + 1], l1, l', kind);
        FirstUsers(l', kind, j1 + 1, j);
      }
      HeadIsLast(l', head, |succ|, j);
      HelpedMembers(l, l', kind);
      MembersAt(l', kind, j);
    }

    /** What `pop_front` and `pop_back` do with the element they found; it fails if somebody is unlinking that. */
    method TakeAmid(e: nat, ghost l: Line, ghost n: nat) returns (r: UnlinkResult, ghost l': Line)
      requires Spelling(l) && 0 < n < |l.nodes| - 1 && l.nodes[n] == e && On(l, n) && 0 < stack[e]
      requires e < |kind| && !pred[e].m
      modifies this`succ, this`pred, this`links
      ensures Spelling(l')
      ensures if Lives(l, e)
              then (r == UnlinkOk || r == UnlinkWaits)
                && Members(l', kind) == Users(l.nodes[..n], l, kind) + Users(l.nodes[n + 1..], l, kind)
              else r == UnlinkFail && Helped(l, l')
      ensures r == UnlinkOk ==> pred[e] == PNIL && succ[e] == SNIL && links[e] == 1
    {
      ghost var l1, k;
      var p;
      p, l1, k := Pred(e, l, n);
      if Lives(l, e) {
        ReadyToUnlink(succ, pred, l1, head, k, n);
        UsersSame(l.nodes[..n], l, l1, kind);
        UsersSame(l.nodes[n + 1..], l, l1, kind);
      } else {
        NotReady(succ, pred, l1, head, k, n);
      }
      r, l' := UnlinkNode(p, e, 1, l1, k);
      if Lives(l, e) {
        MembersWithout(l1, l', kind, head, |succ|, n);
      }
    }

    /**
     * `pop_front`: the first element that nobody is unlinking, or nil. The first round of its loop
     * decides; it waits when the element is not the caller's alone yet.
     */
    method PopFrontAmid(ghost l: Line) returns (e: nat, r: UnlinkResult, ghost l': Line)
      requires Spelling(l)
      modifies this`succ, this`pred, this`links, this`stack
      ensures Spelling(l') && (e == 0 <==> Members(l, kind) == [])
      ensures e == 0 ==> r == UnlinkFail && Helped(l, l') && stack == old(stack)
      ensures e != 0 ==>
        && e < |kind| && stack == old(stack)[e := old(stack[e]) + 1] && (r == UnlinkOk || r == UnlinkWaits)
        && [e] + Members(l', kind) == Members(l, kind)
      ensures r == UnlinkOk && e != 0 ==> pred[e] == PNIL && succ[e] == SNIL && links[e] == 1
    {
      ghost var l1, j;
      e, l1, j := SuccElemAmid(head, l, 0);
      HelpedMembers(l, l1, kind);
      MembersFrom(l1, head, kind, j);
      if kind[e].Head? {
        return 0, UnlinkFail, l1;
      }
      ElementInside(l1, head, kind, j);
      assert PredOk(pred, l1, j);
      Hold(e);
      r, l' := TakeAmid(e, l1, j);
    }

    /**
     * A round of `pop_back`: takes the last element that nobody is unlinking. It fails, and is tried
     * again, when it found an element S-marked by a thread that has not marked its predecessor word yet.
     */
    method PopBackAmid(ghost l: Line) returns (e: nat, r: UnlinkResult, ghost l': Line)
      requires Spelling(l)
      modifies this`succ, this`pred, this`links, this`stack
      ensures Spelling(l')
      ensures e == 0 ==> r == UnlinkFail && Members(l, kind) == [] && Helped(l, l') && stack == old(stack)
      ensures e != 0 ==> e < |kind| && stack == old(stack)[e := old(stack[e]) + 1] && e in l.nodes
      ensures e != 0 && Lives(l, e) ==>
        (r == UnlinkOk || r == UnlinkWaits) && Members(l', kind) + [e] == Members(l, kind)
      ensures e != 0 && !Lives(l, e) ==> r == UnlinkFail && Helped(l, l')
      ensures r == UnlinkOk && e != 0 ==> pred[e] == PNIL && succ[e] == SNIL && links[e] == 1
    {
      ghost var l1, j;
      WordsOf(succ, pred, l, head, 0);
      e, l1, j := PredElemAmid(head, l, |l.nodes| - 1);
      HelpedMembers(l, l1, kind);
      if kind[e].Head? {
        NoMembers(l1, head, kind, j);
        return 0, UnlinkFail, l1;
      }
      ElementInside(l1, head, kind, j);
      Hold(e);
      r, l' := TakeAmid(e, l1, j);
      if Lives(l1, e) {
        MembersUpTo(l1, head, kind, j);
      }
    }

    /**
     * A round of `link_after_`, at the place `k` of `a`: links `x` right behind `a`, among the nodes
     * that nobody is unlinking. `a` itself may be S-marked. Once it is D-marked the round is repeated
     * until it was cut out, and then the call gives up.
     */
    method LinkAfterAmid(a: nat, x: nat, ghost l: Line, ghost k: nat) returns (r: XLink, ghost l': Line)
      requires Spelling(l) && k + 1 < |l.nodes| && l.nodes[k] == a && 0 < x < |kind|
      modifies this`succ, this`pred, this`links, this`linking
      ensures Spelling(l') && linking == old(linking)
      ensures r == if !On(l, k) && old(succ[a]).ptr == 0 then XLostA
                   else if !old(Linkable(x)) then XTwice
                   else if old(succ[a]).d then XRetry
                   else XOk
      ensures r != XOk ==> Helped(l, l')
      ensures r == XOk ==> Lives(l, x) && Linked(l, l', k, x)
    {
      WordsOf(succ, pred, l, head, k);
      assert SuccOk(succ, pred, l, k);
      var b;
      ghost var l1;
      b, l1 := Succ(a, l, k);
      StillUnlinked(old(succ), old(pred), succ, pred, l, l1, head, {}, x);
      if On(l, k) {
        WordBehindRun(old(succ), old(pred), succ, pred, l, head, k);
      }
      if b == 0 {
        return XLostA, l1;
      }
      assert b < |kind|;
      r, l' := Link(a, x, b, l1, k);
      if r == XOk {
        LinkedAfter(l, l1, l', k, x);
      }
    }

    /**
     * A round of `link_before_`, at the place `i` of `b`: links `x` right before `b`, when nobody is
     * unlinking that. Otherwise it tells that `b` is lost, or is repeated when `b` was cut out, or
     * when its marked word was moved back over a marked predecessor, which breaks the documented
     * invariants.
     */
    method LinkBeforeAmid(b: nat, x: nat, ghost l: Line, ghost i: nat) returns (r: XLink, ghost l': Line, ghost k: nat)
      requires Spelling(l) && 0 < i < |l.nodes| && l.nodes[i] == b && 0 < x < |kind|
      modifies this`succ, this`pred, this`links, this`linking
      ensures Sized() && Counted() && linking == old(linking)
      ensures Spelling(l') <==> old(Aidable(pred, l, b))
      ensures r == if !old(Linkable(x)) then XTwice
                   else if Lives(l, b) then XOk
                   else if On(l', i) && old(Aidable(pred, l, b)) then XLostB else XRetry
      ensures r != XOk ==> Helped(l, l')
      ensures k < i && (r == XOk ==> Lives(l, x) && Linked(l, l', k, x) && NoneLive(l, k, i))
      ensures !old(Aidable(pred, l, b)) ==>
        l' == l && succ == old(succ) && b < |old(pred)| && pred == old(pred)[b := PWord(l.nodes[k], true)]
        && Strayed(old(pred), pred, l)
    {
      var a;
      ghost var l1;
      WordsOf(succ, pred, l, head, i);
      a, l1, k := Pred(b, l, i);
      FoundBefore(old(succ), old(pred), succ, pred, l, l1, head, k, i, x);
      r, l' := LinkFound(a, x, b, l, l1, k, On(l1, i) && old(Aidable(pred, l, b)));
    }

    /** The second half: `link_` right before `b`, which `named` says `a` names, with or without a mark. */
    method LinkFound(a: nat, x: nat, b: nat, ghost l: Line, ghost l1: Line, ghost k: nat, ghost named: bool)
      returns (r: XLink, ghost l': Line)
      requires Helped(l, l1) && k + 1 < |l.nodes| && l.nodes[k] == a && 0 < b < |kind| && 0 < x < |kind|
      requires (Spelling(l1) || Refusing(a, x, b)) && !pred[a].m && (Lives(l, b) ==> named)
      requires if named then succ[a] == SWord(b, !Lives(l, b), false) else succ[a].ptr != 0 && succ[a].ptr != b
      modifies this`succ, this`pred, this`links, this`linking
      ensures Sized() && Counted() && linking == old(linking) && (old(Spelling(l1)) ==> Spelling(l'))
      ensures r == if !old(Linkable(x)) then XTwice
                   else if Lives(l, b) then XOk
                   else if named then XLostB else XRetry
      ensures r != XOk ==> l' == l1 && succ == old(succ) && pred == old(pred)
      ensures r == XOk ==> Lives(l, x) && Linked(l, l', k, x)
    {
      r, l' := Link(a, x, b, l1, k);
      if r == XOk {
        LinkedAfter(l, l1, l', k, x);
      }
    }

    // -------------------------------------------------------------- the list, when nobody else is at work on it

    /** `succ_` of the linked node at place `i`. */
    method SuccAt(x: nat, ghost i: nat) returns (r: nat)
      requires Valid() && i + 1 < |chain| && chain[i] == x
      modifies this`succ, this`pred, this`links
      ensures Valid() && succ == old(succ) && pred == old(pred) && r == chain[i + 1]
    {
      CleanRun(chain, i);
      ghost var l';
      r, l' := Succ(x, Clean(chain), i);
      CleanFramed(old(succ), old(pred), succ, pred, chain, head, l', {});
    }

    /** `pred_` of the linked node at place `i`. */
    method PredAt(x: nat, ghost i: nat) returns (r: nat)
      requires Valid() && 0 < i < |chain| && chain[i] == x
      modifies this`succ, this`pred, this`links
      ensures Valid() && r == chain[i - 1] && succ == old(succ) && pred == old(pred)[x := PWord(r, false)]
    {
      SpelledAt(succ, pred, chain, head, i);
      ghost var l', j;
      r, l', j := Pred(x, Clean(chain), i);
      CleanFramed(old(succ), old(pred), succ, pred, chain, head, l', {x});
      CleanPrevious(l', j, i);
    }

    /** The successor of `x` in the chain, nil when it is not linked. */
    method SuccOf(x: nat) returns (r: nat)
      requires Valid() && 0 < x < |kind|
      modifies this`succ, this`pred, this`links
      ensures Valid() && succ == old(succ) && pred == old(pred)
      ensures if x in chain then Place(chain, x) + 1 < |chain| && r == chain[Place(chain, x) + 1] else r == 0
    {
      LinkedByPred(succ, pred, chain, head, x);
      if succ[x].ptr == 0 {
        UnlinkedBySucc(succ, pred, chain, head, x);
        return 0;
      }
      PlacesOf(chain, head, |kind|, x);
      r := SuccAt(x, Place(chain, x));
    }

    /** The predecessor of `x` in the chain, nil when it is not linked. */
    method PredOf(x: nat) returns (r: nat)
      requires Valid() && 0 < x < |kind|
      modifies this`succ, this`pred, this`links
      ensures Valid() && succ == old(succ)
      ensures if x in chain
              then 0 < PlaceBefore(chain, x) && r == chain[PlaceBefore(chain, x) - 1]
                && pred == old(pred)[x := PWord(r, false)]
              else r == 0 && pred == old(pred)
      ensures x in chain <==> old(pred[x]).ptr != 0
    {
      LinkedByPred(succ, pred, chain, head, x);
      if pred[x].ptr == 0 {
        return 0;
      }
      PlacesOf(chain, head, |kind|, x);
      r := PredAt(x, PlaceBefore(chain, x));
    }

    /** `is_unlinked_`. */
    method IsUnlinked(x: nat) returns (r: bool)
      requires Valid() && 0 < x < |kind|
      ensures r == (x !in chain)
    {
      LinkedByPred(succ, pred, chain, head, x);
      r := pred[x].ptr == 0 || pred[x].m;
    }

    /** `link_` between the node at place `i` and `b`. */
    method LinkAt(a: nat, x: nat, b: nat, ghost i: nat) returns (r: XLink)
      requires Valid() && i + 1 < |chain| && chain[i] == a && 0 < b < |kind| && 0 < x < |kind|
      modifies this`succ, this`pred, this`links, this`linking, this`chain
      ensures Valid() && linking == old(linking)
      ensures r == if !old(Linkable(x)) then XTwice
                   else if old(succ[a]) != SWord(b, false, false) then LinkError(old(succ), old(pred), a, b)
                   else XOk
      ensures r == XOk ==> x !in old(chain) && b == old(chain)[i + 1] && chain == Insert(old(chain), i + 1, x)
      ensures r == XOk ==> succ[x] == SWord(b, false, false) && succ[a] == SWord(x, false, false)
      ensures r != XOk ==> chain == old(chain) && succ == old(succ) && pred == old(pred)
    {
      ghost var l';
      SpelledAt(succ, pred, chain, head, i);
      r, l' := Link(a, x, b, Clean(chain), i);
      if r == XOk {
        CleanLinked(old(succ), old(pred), succ, pred, chain, head, l', i, x, b);
      }
      chain := l'.nodes;
    }

    /** `unlink_`: when nobody else has a handle on `x`, it does not wait. */
    method UnlinkAt(a: nat, x: nat, expected: nat) returns (r: UnlinkResult)
      requires Valid() && a in chain && 0 < x < |kind| && x != head && stack[x] == expected
      modifies this`succ, this`pred, this`links, this`chain
      ensures Valid()
      ensures r == if old(succ[a]) == SWord(x, false, false) then UnlinkOk
                   else UnlinkRefusal(old(succ), old(pred), a, x)
      ensures r == UnlinkOk ==>
                && x in old(chain) && chain == Remove(old(chain), Place(old(chain), x)) && x !in chain
                && links[x] == expected
      ensures r != UnlinkOk ==> chain == old(chain) && succ == old(succ) && pred == old(pred)
    {
      PlacesOf(chain, head, |kind|, a);
      SpelledAt(succ, pred, chain, head, Place(chain, a));
      if succ[a] == SWord(x, false, false) {
        UnlinkNext(a, x, expected);
        return UnlinkOk;
      }
      ghost var l';
      r, l' := UnlinkNode(a, x, expected, Clean(chain), Place(chain, a));
    }

    /** The same, when `a` is the direct predecessor of `x`. */
    method UnlinkNext(a: nat, x: nat, expected: nat)
      requires Valid() && a in chain && 0 < x < |kind| && x != head && stack[x] == expected
      requires a < |succ| && succ[a] == SWord(x, false, false)
      modifies this`succ, this`pred, this`links, this`chain
      ensures Valid() && x in old(chain) && chain == Remove(old(chain), Place(old(chain), x)) && x !in chain
      ensures links[x] == expected
    {
      ghost var k := NextPlace(succ, pred, chain, head, a, x);
      var r;
      ghost var l';
      r, l' := UnlinkNode(a, x, expected, Clean(chain), k);
      CleanUnlinked(old(pred), succ, pred, chain, head, l', x);
      chain := l'.nodes;
    }

    /** `link_after_`: when nobody interferes, the first round of its loop decides. */
    method LinkAfter(a: nat, x: nat) returns (r: LinkResult)
      requires Valid() && 0 < a < |kind| && 0 < x < |kind| && x != head
      modifies this`succ, this`pred, this`links, this`linking, this`chain
      ensures Valid() && linking == old(linking)
      ensures r == if a !in old(chain) then LinkLost else if !old(Linkable(x)) then LinkTwice else LinkOk
      ensures r != LinkOk ==> chain == old(chain)
      ensures r == LinkOk ==>
        Place(old(chain), a) + 1 < |old(chain)| && chain == Insert(old(chain), Place(old(chain), a) + 1, x)
      ensures r == LinkOk ==> succ[a] == SWord(x, false, false)
    {
      var b := SuccOf(a);
      LinkedByPred(succ, pred, chain, head, a);
      if b == 0 {
        return LinkLost;
      }
      r := LinkBetween(a, x, b, Place(chain, a));
    }

    /** `link_before_`: when nobody interferes, the first round of its loop decides. */
    method LinkBefore(b: nat, x: nat) returns (r: LinkResult)
      requires Valid() && 0 < b < |kind| && 0 < x < |kind| && x != head
      modifies this`succ, this`pred, this`links, this`linking, this`chain
      ensures Valid() && linking == old(linking)
      ensures r == if b !in old(chain) then LinkLost else if !old(Linkable(x)) then LinkTwice else LinkOk
      ensures r != LinkOk ==> chain == old(chain)
      ensures r == LinkOk ==>
        chain == Insert(old(chain), PlaceBefore(old(chain), b), x) && succ[x] == SWord(b, false, false)
    {
      var a := PredOf(b);
      if a == 0 {
        return LinkLost;
      }
      assert Linkable(x) == old(Linkable(x)) by {
        LinkedByPred(succ, pred, chain, head, x);
      }
      PlacesOf(chain, head, |kind|, b);
      r := LinkBetween(a, x, b, PlaceBefore(chain, b) - 1);
    }

    /** `link_` of `x` between the node at place `i` and the one behind it, which is `b`. */
    method LinkBetween(a: nat, x: nat, b: nat, ghost i: nat) returns (r: LinkResult)
      requires Valid() && i + 1 < |chain| && chain[i] == a && chain[i + 1] == b && 0 < x < |kind|
      modifies this`succ, this`pred, this`links, this`linking, this`chain
      ensures Valid() && linking == old(linking)
      ensures r == if !old(Linkable(x)) then LinkTwice else LinkOk
      ensures r != LinkOk ==> chain == old(chain)
      ensures r == LinkOk ==>
        chain == Insert(old(chain), i + 1, x) && succ[x] == SWord(b, false, false) && succ[a] == SWord(x, false, false)
    {
      SpelledAt(succ, pred, chain, head, i);
      var xr := LinkAt(a, x, b, i);
      r := if xr == XTwice then LinkTwice else LinkOk;
    }

    /** `succ_elem_`: the first element behind `x`, skipping iterator markers; the head when there is none. */
    method SuccElem(x: nat) returns (r: nat)
      requires Valid() && x in RankOf()
      modifies this`succ, this`pred, this`links
      ensures Valid() && succ == old(succ) && pred == old(pred)
      ensures var n := RankOf()[x] + if IsElement(kind, x) then 1 else 0;
        && r == Nth(Items(), head, n) && 0 < r < |kind| && r in RankOf()
        && if n < |Items()| then kind[r].Element? && RankOf()[r] == n else kind[r].Head? && RankOf()[r] == 0
    {
      ghost var n := RankOf()[x] + if IsElement(kind, x) then 1 else 0;
      ghost var i := AfterPlace(chain, kind, head, x);
      r := SuccAt(x, i);
      i := i + 1;
      while kind[r].Iterator?
        invariant Valid() && succ == old(succ) && pred == old(pred)
        invariant 0 < i < |chain| && chain[i] == r && Upto(chain, kind, i) == n
        decreases |chain| - i
      {
        SkipMarker(chain, kind, head, i);
        r := SuccAt(r, i);
        i := i + 1;
      }
      assert chain[i] == r && Upto(chain, kind, i) == n && !kind[r].Iterator?;
      NthAt(chain, kind, head, i);
    }

    /** `pred_elem_`: the last element before `x`, skipping iterator markers; the head when there is none. */
    method PredElem(x: nat) returns (r: nat)
      requires Valid() && x in RankOf()
      modifies this`succ, this`pred, this`links
      ensures Valid()
      ensures var n := if x == head then |Items()| else RankOf()[x];
        && r == Pth(Items(), head, n) && 0 < r < |kind| && r in RankOf()
        && if 0 < n <= |Items()| then kind[r].Element? && RankOf()[r] == n - 1 else kind[r].Head? && RankOf()[r] == 0
    {
      ghost var n := if x == head then |Items()| else RankOf()[x];
      ghost var i := UntilPlace(chain, kind, head, x);
      r := PredAt(x, i);
      i := i - 1;
      while kind[r].Iterator?
        invariant Valid()
        invariant 0 <= i < |chain| - 1 && chain[i] == r && Upto(chain, kind, i + 1) == n
        decreases i
      {
        SkipMarker(chain, kind, head, i);
        r := PredAt(r, i);
        i := i - 1;
      }
      PthAt(chain, kind, head, i);
    }

    method Empty() returns (r: bool)
      requires Valid()
      modifies this`succ, this`pred, this`links
      ensures Valid() && r == (Items() == [])
    {
      HeadRank(chain, kind, head);
      var s := SuccElem(head);
      r := kind[s].Head?;
    }

    method Size() returns (size: nat)
      requires Valid()
      modifies this`succ, this`pred, this`links
      ensures Valid() && size == |Items()|
    {
      size := 0;
      HeadRank(chain, kind, head);
      var i := SuccElem(head);
      while !kind[i].Head?
        invariant Valid() && 0 < i < |kind| && size <= |Items()| && i in RankOf()
        invariant if size < |Items()| then kind[i].Element? && RankOf()[i] == size else kind[i].Head?
        decreases |Items()| - size
      {
        size := size + 1;
        i := SuccElem(i);
      }
    }

    /** `link_front`. */
    method LinkFront(e: nat) returns (r: bool)
      requires Valid() && 0 < e < |kind| && kind[e].Element?
      modifies this`succ, this`pred, this`links, this`linking, this`chain
      ensures Valid() && linking == old(linking)
      ensures r == old(Linkable(e))
      ensures Items() == if r then [e] + old(Items()) else old(Items())
      ensures chain == if r then Insert(old(chain), 1, e) else old(chain)
    {
      FirstElements(chain, kind, e);
      var rs := LinkAfter(head, e);
      r := rs == LinkOk;
    }

    /** `link_back`. */
    method LinkBack(e: nat) returns (r: bool)
      requires Valid() && 0 < e < |kind| && kind[e].Element?
      modifies this`succ, this`pred, this`links, this`linking, this`chain
      ensures Valid() && linking == old(linking)
      ensures r == old(Linkable(e))
      ensures Items() == if r then old(Items()) + [e] else old(Items())
      ensures chain == if r then Insert(old(chain), |old(chain)| - 1, e) else old(chain)
    {
      InsertElements(chain, kind, |chain| - 1, e);
      UptoAll(chain, kind, head);
      var rs := LinkBefore(head, e);
      r := rs == LinkOk;
    }

    /** `unlink_` with the direct predecessor that `pred_` finds: decided in the first round when nobody interferes. */
    method UnlinkFrom(x: nat, expected: nat) returns (r: bool)
      requires Valid() && 0 < x < |kind| && x != head && stack[x] == expected
      modifies this`succ, this`pred, this`links, this`chain
      ensures Valid() && r == (x in old(chain))
      ensures !r ==> chain == old(chain)
      ensures r ==> chain == Remove(old(chain), Place(old(chain), x)) && x !in chain && links[x] == expected
    {
      var p := PredOf(x);
      if p == 0 {
        return false;
      }
      PlacesOf(chain, head, |kind|, x);
      SpelledAt(succ, pred, chain, head, PlaceBefore(chain, x) - 1);
      var ur := UnlinkAt(p, x, expected);
      r := true;
    }

    /** What `pop_front` and `pop_back` do once they found an element: the caller gets the only handle on it. */
    method PopElement(e: nat, ghost n: nat)
      requires Valid() && Quiet() && n < |Items()| && e == Items()[n]
      modifies this`succ, this`pred, this`links, this`stack, this`chain
      ensures Valid() && Items() == Remove(old(Items()), n)
      ensures e in old(Ranks(chain, kind)) && Ranks(chain, kind) == Lowered(old(Ranks(chain, kind)), e)
      ensures 0 < e < |kind| && stack == old(stack)[e := 1] && links[e] == 1
    {
      NthPlace(chain, kind, head, n);
      UnlinkElementAt(chain, kind, head, Place(chain, e));
      Hold(e);
      var popped := UnlinkFrom(e, 1);
    }

    /** `pop_front`: nil when there is no element. */
    method PopFront() returns (e: nat)
      requires Valid() && Quiet()
      modifies this`succ, this`pred, this`links, this`stack, this`chain
      ensures Valid() && (e == 0 <==> old(Items()) == [])
      ensures e == 0 ==> chain == old(chain) && stack == old(stack)
      ensures e != 0 ==>
                && e == old(Items())[0] && e in old(Ranks(chain, kind)) && Items() == old(Items())[1..]
                  && Ranks(chain, kind) == Lowered(old(Ranks(chain, kind)), e)
                && e < |kind| && stack == old(stack)[e := 1] && links[e] == 1
    {
      HeadRank(chain, kind, head);
      e := SuccElem(head);
      if kind[e].Head? {
        return 0;
      }
      PopElement(e, 0);
    }

    /** `pop_back`: nil when there is no element. */
    method PopBack() returns (e: nat)
      requires Valid() && Quiet()
      modifies this`succ, this`pred, this`links, this`stack, this`chain
      ensures Valid() && (e == 0 <==> old(Items()) == [])
      ensures e == 0 ==> chain == old(chain) && stack == old(stack)
      ensures e != 0 ==>
                && e == old(Items())[|old(Items())| - 1] && e in old(Ranks(chain, kind))
                  && Items() == old(Items())[..|old(Items())| - 1]
                && Ranks(chain, kind) == Lowered(old(Ranks(chain, kind)), e)
                && e < |kind| && stack == old(stack)[e := 1] && links[e] == 1
    {
      HeadRank(chain, kind, head);
      e := PredElem(head);
      if kind[e].Head? {
        return 0;
      }
      PopElement(e, |Items()| - 1);
    }

    /** `pop_front` of the list that owns its elements: the handle goes, the element is the caller's. */
    method TakeFront() returns (e: nat)
      requires Valid() && Quiet()
      modifies this`succ, this`pred, this`links, this`stack, this`chain
      ensures Valid() && Quiet() && (e == 0 <==> old(Items()) == [])
      ensures if e == 0 then Items() == [] else e == old(Items())[0] && Items() == old(Items())[1..]
    {
      e := PopFront();
      if e != 0 {
        Release(e);
      }
    }

    /** `clear_and_dispose`: disposes every element once, front to back. */
    method ClearAndDispose() returns (disposed: seq<nat>)
      requires Valid() && Quiet()
      modifies this`succ, this`pred, this`links, this`stack, this`chain
      ensures Valid() && Quiet() && Items() == [] && disposed == old(Items())
    {
      disposed := [];
      var p := TakeFront();
      while p != 0
        invariant Valid() && Quiet()
        invariant if p == 0 then Items() == [] && disposed == old(Items()) else disposed + [p] + Items() == old(Items())
        decreases |Items()|, p
      {
        disposed := disposed + [p];
        p := TakeFront();
      }
    }

    // -------------------------------------------------------------- iterator markers

    /** A marker that its owner may link or unlink. */
    ghost predicate Owned(x: nat)
      reads this`stack, this`linking
    {
      0 < x < |kind| == |stack| == |linking| && kind[x].Iterator? && stack[x] == 0 && !linking[x]
    }

    /** `link_after_` for an iterator marker. */
    method LinkMarkerAfter(a: nat, x: nat) returns (r: LinkResult)
      requires Valid() && 0 < a < |kind| && Owned(x) && x !in RankOf()
      modifies this`succ, this`pred, this`links, this`linking, this`chain
      ensures Valid() && linking == old(linking) && Items() == old(Items())
      ensures r == if a in old(RankOf()) then LinkOk else LinkLost
      ensures r == LinkLost ==> RankOf() == old(RankOf())
      ensures r == LinkOk ==>
                && RankOf() == old(RankOf())[x := old(RankOf())[a] + if IsElement(kind, a) then 1 else 0]
                && succ[a] == SWord(x, false, false)
      ensures r == LinkOk ==> BehindNow(old(chain), chain, a, x)
    {
      MarkerMayBeLinked(succ, pred, chain, kind, head, a, x);
      ghost var was := chain;
      r := LinkAfter(a, x);
      if r == LinkOk {
        MarkerBehind(was, kind, head, a, x);
      }
    }

    /** `link_before_` for an iterator marker. */
    method LinkMarkerBefore(b: nat, x: nat) returns (r: LinkResult)
      requires Valid() && 0 < b < |kind| && Owned(x) && x !in RankOf()
      modifies this`succ, this`pred, this`links, this`linking, this`chain
      ensures Valid() && linking == old(linking) && Items() == old(Items())
      ensures r == if b in old(RankOf()) then LinkOk else LinkLost
      ensures r == LinkLost ==> RankOf() == old(RankOf())
      ensures r == LinkOk ==> RankOf() == old(RankOf())[x := if b == head then |Items()| else old(RankOf())[b]]
      ensures r == LinkOk ==> succ[x] == SWord(b, false, false) && (b != head ==> AheadNow(old(chain), chain, b, x))
    {
      MarkerMayBeLinked(succ, pred, chain, kind, head, b, x);
      ghost var was := chain;
      r := LinkBefore(b, x);
      if r == LinkOk {
        MarkerAhead(was, kind, head, b, x);
      }
    }

    /** `unlink_iter_`: unlinks a marker; false when it is not linked. */
    method UnlinkMarker(x: nat) returns (r: bool)
      requires Valid() && Owned(x)
      modifies this`succ, this`pred, this`links, this`chain
      ensures Valid() && Items() == old(Items())
      ensures r == (x in old(RankOf())) && RankOf() == old(RankOf()) - {x} && GoneNow(old(chain), chain, x)
    {
      RankedIsLinked(chain, kind, x);
      if x in chain {
        PlacesOf(chain, head, |kind|, x);
        UnlinkMarkerAt(chain, kind, head, Place(chain, x));
        RemovedGone(chain, head, |kind|, Place(chain, x));
      }
      r := UnlinkFrom(x, 0);
    }

    /** `unlink_` for an element that `a` names. */
    method UnlinkElement(a: nat, e: nat, expected: nat) returns (r: UnlinkResult)
      requires Valid() && 0 < a < |kind| && 0 < e < |kind| && kind[e].Element? && stack[e] == expected
      requires succ[a] == SWord(e, false, false)
      modifies this`succ, this`pred, this`links, this`chain
      ensures Valid() && r == UnlinkOk && links[e] == expected && e in old(RankOf())
        && old(RankOf())[e] < |old(Items())|
      ensures Items() == Remove(old(Items()), old(RankOf())[e]) && old(Items())[old(RankOf())[e]] == e
      ensures RankOf() == Lowered(old(RankOf()), e) && GoneNow(old(chain), chain, e)
    {
      NeighbourPlace(succ, pred, chain, head, a, e);
      UnlinkElementAt(chain, kind, head, Place(chain, e));
      RemovedGone(chain, head, |kind|, Place(chain, e));
      r := UnlinkAt(a, e, expected);
    }

    /** `link_after_` or `link_before_` for the element `e`, between two neighbouring markers. */
    method LinkElementBetween(a: nat, e: nat, f: nat, after: bool) returns (r: LinkResult)
      requires Valid() && a in RankOf() && a < |kind| && 0 < f < |kind| && kind[a].Iterator? && kind[f].Iterator?
      requires succ[a] == SWord(f, false, false) && 0 < e < |kind| && kind[e].Element?
      modifies this`succ, this`pred, this`links, this`linking, this`chain
      ensures Valid() && linking == old(linking)
      ensures r == if old(linking)[e] || e in old(RankOf()) then LinkTwice else LinkOk
      ensures r == LinkTwice ==> Items() == old(Items()) && RankOf() == old(RankOf())
      ensures r == LinkOk ==>
                var n := old(RankOf())[a];
                && n <= |old(Items())| && Items() == Insert(old(Items()), n, e)
                && a in RankOf() && e in RankOf() && f in RankOf() && RankOf()[a] == RankOf()[e] == n
                  && RankOf()[f] == n + 1
      ensures r == LinkOk ==> BehindNow(old(chain), chain, a, e) && Raised(old(RankOf()), RankOf(), old(chain), a)
    {
      ghost var j := BetweenMarkers(succ, pred, chain, kind, head, a, f);
      RankedIsLinked(chain, kind, e);
      LinkedByPred(succ, pred, chain, head, e);
      if e !in chain {
        ElementBetween(chain, kind, head, j, e);
      }
      if after {
        r := LinkAfter(a, e);
      } else {
        r := LinkBefore(f, e);
      }
    }
  }
}
