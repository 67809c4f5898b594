/** Iterators over a list, erasing through them, and removing every element that satisfies a predicate. */
module ListFilter {
  import opened LinkedList
  import opened ListElements
  import opened ListModel
  import opened ListPosition

  /** The elements that fail the predicate, in order. */
  function Kept(s: seq<nat>, p: nat -> bool): (r: seq<nat>)
    ensures |r| <= |s|
  {
    if s == [] then [] else Kept(s[..|s| - 1], p) + if p(s[|s| - 1]) then [] else [s[|s| - 1]]
  }

  /** The elements that satisfy the predicate, in order. */
  function Dropped(s: seq<nat>, p: nat -> bool): seq<nat> {
    if s == [] then [] else Dropped(s[..|s| - 1], p) + if p(s[|s| - 1]) then [s[|s| - 1]] else []
  }

  /** What `remove_and_dispose_if` has made of the items after looking at the first `j`. */
  ghost predicate Filtered(was: seq<nat>, p: nat -> bool, j: nat, items: seq<nat>, disposed: seq<nat>, k: nat) {
    && j <= |was| && items == Kept(was[..j], p) + was[j..] && disposed == Dropped(was[..j], p)
    && k == |Kept(was[..j], p)|
  }

  lemma FilteredStep(was: seq<nat>, p: nat -> bool, j: nat, items: seq<nat>, disposed: seq<nat>, k: nat)
    requires Filtered(was, p, j, items, disposed, k) && k != |items|
    ensures k < |items| && j < |was|
    ensures if p(items[k]) then Filtered(was, p, j + 1, Remove(items, k), disposed + [items[k]], k)
            else Filtered(was, p, j + 1, items, disposed, k + 1)
  {
    assert was[..j + 1][..j] == was[..j];
    assert items[k] == was[j];
  }

  lemma FilteredEnd(was: seq<nat>, p: nat -> bool, j: nat, items: seq<nat>, disposed: seq<nat>, k: nat)
    requires Filtered(was, p, j, items, disposed, k) && k == |items|
    ensures items == Kept(was, p) && disposed == Dropped(was, p)
  {
    assert was[..j] == was;
  }

  /** Filtering keeps or drops every element, by what the predicate says of it. */
  lemma FilterIsFaithful(s: seq<nat>, p: nat -> bool)
    ensures multiset(s) == multiset(Kept(s, p)) + multiset(Dropped(s, p))
    ensures forall y :: y in Kept(s, p) ==> !p(y)
    ensures forall y :: y in Dropped(s, p) ==> p(y)
  {
    FilterLosesNone(s, p);
    KeptFail(s, p);
    DroppedSatisfy(s, p);
  }

  lemma {:induction false} FilterLosesNone(s: seq<nat>, p: nat -> bool)
    ensures multiset(s) == multiset(Kept(s, p)) + multiset(Dropped(s, p))
  {
    if s != [] {
      var rest, last := s[..|s| - 1], s[|s| - 1];
      FilterLosesNone(rest, p);
      assert s == rest + [last];
      calc {
        multiset(s);
        multiset(rest) + multiset{last};
        multiset(Kept(rest, p)) + multiset(Dropped(rest, p)) + multiset{last};
        multiset(Kept(s, p)) + multiset(Dropped(s, p));
      }
    }
  }

  lemma {:induction false} KeptFail(s: seq<nat>, p: nat -> bool)
    ensures forall y :: y in Kept(s, p) ==> !p(y)
  {
    if s != [] {
      KeptFail(s[..|s| - 1], p);
    }
  }

  lemma {:induction false} DroppedSatisfy(s: seq<nat>, p: nat -> bool)
    ensures forall y :: y in Dropped(s, p) ==> p(y)
  {
    if s != [] {
      DroppedSatisfy(s[..|s| - 1], p);
    }
  }

  /** A front and a back marker around the element number `k`, which `ptr` is, or around the end. */
  ghost predicate Stands(items: seq<nat>, ranks: map<nat, nat>, back: nat, front: nat, ptr: nat, k: nat) {
    && back in ranks && front in ranks && k <= |items| && ranks[back] == k
    && if k < |items| then ranks[front] == k + 1 && ptr == items[k] && ptr != 0 else ranks[front] == 0 && ptr == 0
  }

  /** An iterator at the end stays there when an element goes and two other markers move. */
  lemma EndStays(items: seq<nat>, ranks: map<nat, nat>, back: nat, front: nat, e: nat, x: nat, y: nat, r: nat, s: nat)
    requires Stands(items, ranks, back, front, 0, |items|) && e in ranks && ranks[e] < |items|
    requires {x, y} !! {back, front} && e != back && e != front
    ensures Stands(Remove(items, ranks[e]), Lowered(ranks, e)[x := r][y := s], back, front, 0, |items| - 1)
  {}

  datatype Erasure = InvalidIterator | NotLinked | Erased(e: nat)

  /** `ll_smartptr_list::iterator`: a position and the element it is around, nil at the end. */
  class Iterator {
    const pos: Position
    var ptr: nat

    constructor (pos: Position)
      ensures this.pos == pos && ptr == 0
    {
      this.pos, ptr := pos, 0;
    }

    /** The iterator stands at the element number `k`, or at the end. */
    ghost predicate At(h: Heap, k: nat)
      reads this`ptr, pos`swap, h`chain
    {
      Stands(h.Items(), h.RankOf(), pos.Back(), pos.Front(), ptr, k)
    }

    /** `begin()`. */
    method Begin(h: Heap)
      requires h.Valid() && pos.Ready(h)
      modifies this, pos, h`succ, h`pred, h`links, h`linking, h`chain
      ensures h.Valid() && At(h, 0) && h.linking == old(h.linking) && h.Items() == old(h.Items())
      ensures h.RankOf() == old(h.RankOf())[pos.first := if 0 < |h.Items()| then 1 else 0][pos.second := 0]
    {
      var e := pos.InitBegin(h);
      ptr := if h.kind[e].Head? then 0 else e;
    }

    /** `end()`. */
    method End(h: Heap)
      requires h.Valid() && pos.Ready(h)
      modifies this, pos, h`succ, h`pred, h`links, h`linking, h`chain
      ensures h.Valid() && At(h, |h.Items()|) && h.linking == old(h.linking) && h.Items() == old(h.Items())
      ensures h.RankOf() == old(h.RankOf())[pos.second := |h.Items()|][pos.first := 0]
    {
      var e := pos.InitEnd(h);
      ptr := 0;
    }

    /** `operator++`. */
    method Next(h: Heap)
      requires h.Valid() && pos.Ready(h) && (pos.Linked(h) || pos.Unlinked(h))
      modifies this, pos, h`succ, h`pred, h`links, h`linking, h`chain
      ensures h.Valid() && h.linking == old(h.linking) && h.Items() == old(h.Items())
      ensures old(pos.Unlinked(h)) ==> ptr == 0 && pos.swap == old(pos.swap) && h.RankOf() == old(h.RankOf())
      ensures old(pos.Linked(h)) ==>
        var n := old(h.RankOf())[old(pos.Front())];
        && At(h, n)
        && h.RankOf() == old(h.RankOf())[old(pos.Back()) := if n < |h.Items()| then n + 1 else 0]
    {
      if pos.Linked(h) {
        RankInside(h.chain, h.kind, pos.Front());
      }
      var e := pos.StepForward(h);
      ptr := if e == 0 || h.kind[e].Head? then 0 else e;
    }

    /** `operator==`. */
    method Equals(h: Heap, o: Iterator, ghost k: nat, ghost n: nat) returns (r: bool)
      requires h.Valid() && pos.Ready(h) && o.pos.Ready(h) && At(h, k) && o.At(h, n) && pos.Back() != o.pos.Back()
      modifies h`succ, h`pred, h`links
      ensures h.Valid() && r == (k == n)
    {
      r := pos.Equals(h, o.pos);
    }

    /** `operator=`. */
    method Assign(h: Heap, o: Iterator, ghost k: nat)
      requires h.Valid() && pos.Ready(h) && o.pos.Ready(h) && o.At(h, k)
        && {pos.first, pos.second} !! {o.pos.first, o.pos.second} && pos != o.pos && this != o
      modifies this, pos, h`succ, h`pred, h`links, h`linking, h`chain
      ensures h.Valid() && At(h, k) && h.linking == old(h.linking) && h.Items() == old(h.Items())
      ensures h.RankOf() == old(h.RankOf())
                [pos.first := old(h.RankOf())[o.pos.first]][pos.second := old(h.RankOf())[o.pos.second]]
    {
      pos.Assign(h, o.pos);
      ptr := o.ptr;
    }

    /**
     * The first half of `erase_and_dispose`: unlinks the element of `i`,
     * or copies the position of `i` when it is not linked.
     */
    method UnlinkOrCopy(h: Heap, i: Iterator) returns (unlinked: bool)
      requires h.Valid() && pos.Ready(h) && i.pos.Ready(h) && i.pos.Linked(h) && this != i && pos != i.pos
      requires {pos.first, pos.second} !! {i.pos.first, i.pos.second}
      requires 0 < i.ptr < |h.kind| && h.kind[i.ptr].Element? && h.stack[i.ptr] == 0
      modifies pos, h`succ, h`pred, h`links, h`linking, h`chain, h`stack
      ensures h.Valid() && pos.Ready(h) && h.linking == old(h.linking) && pos.Linked(h)
        && unlinked == (i.ptr in old(h.RankOf()))
      ensures unlinked ==>
                var k := old(h.RankOf())[i.ptr];
                && h.stack == old(h.stack)[i.ptr := 1] && k < |old(h.Items())| && old(h.Items())[k] == i.ptr
                && h.Items() == Remove(old(h.Items()), k) && !pos.swap
                && h.RankOf() == Lowered(old(h.RankOf()), i.ptr)[pos.first := k][pos.second := k]
      ensures !unlinked ==>
                && h.stack == old(h.stack) && h.Items() == old(h.Items()) && pos.swap == i.pos.swap
                && h.RankOf() == old(h.RankOf())
                     [pos.first := old(h.RankOf())[i.pos.first]][pos.second := old(h.RankOf())[i.pos.second]]
    {
      unlinked := pos.UnlinkAt(h, i.ptr, 0);
      if !unlinked {
        RelinkedBoth(old(h.RankOf()), pos.first, pos.second, old(h.RankOf())[i.pos.first],
          old(h.RankOf())[i.pos.second]);
        pos.Assign(h, i.pos);
      }
    }

    /**
     * `erase_and_dispose(i, disp)`, its result built in this iterator: unlinks the element of `i` and
     * ends up at the one behind it; when somebody else unlinked that element, steps on from `i`.
     * Throws `invalid_argument` when `i` has no element.
     */
    method EraseAt(h: Heap, i: Iterator) returns (r: Erasure)
      requires h.Valid() && pos.Ready(h) && i.pos.Ready(h) && i.pos.Linked(h) && this != i && pos != i.pos
      requires {pos.first, pos.second} !! {i.pos.first, i.pos.second}
      requires i.ptr != 0 ==> i.ptr < |h.kind| && h.kind[i.ptr].Element? && h.stack[i.ptr] == 0
      modifies this, pos, h`succ, h`pred, h`links, h`linking, h`chain, h`stack
      ensures h.Valid() && h.linking == old(h.linking) && h.stack == old(h.stack)
      ensures r == if i.ptr == 0 then InvalidIterator else if i.ptr in old(h.RankOf()) then Erased(i.ptr) else NotLinked
      ensures r.InvalidIterator? ==> h.chain == old(h.chain)
      ensures r.NotLinked? ==>
                && h.Items() == old(h.Items()) && At(h, old(h.RankOf())[i.pos.Front()])
                && h.RankOf() - {pos.first, pos.second} == old(h.RankOf()) - {pos.first, pos.second}
      ensures r.Erased? ==>
                var k := old(h.RankOf())[i.ptr];
                && k < |old(h.Items())| && old(h.Items())[k] == i.ptr && h.Items() == Remove(old(h.Items()), k)
                  && At(h, k)
                && h.RankOf() == Lowered(old(h.RankOf()), i.ptr)
                     [pos.first := k][pos.second := if k < |h.Items()| then k + 1 else 0]
    {
      if i.ptr == 0 {
        return InvalidIterator;
      }
      var unlinked := EraseElement(h, i, h.Items(), h.RankOf());
      r := if unlinked then Erased(i.ptr) else NotLinked;
    }

    /** The same, when `i` has an element; `items` and `ranks` are those at the start. */
    method EraseElement(h: Heap, i: Iterator, ghost items: seq<nat>, ghost ranks: map<nat, nat>)
      returns (unlinked: bool)
      requires h.Valid() && pos.Ready(h) && i.pos.Ready(h) && i.pos.Linked(h) && this != i && pos != i.pos
      requires {pos.first, pos.second} !! {i.pos.first, i.pos.second}
      requires 0 < i.ptr < |h.kind| && h.kind[i.ptr].Element? && h.stack[i.ptr] == 0
      requires items == h.Items() && ranks == h.RankOf()
      modifies this, pos, h`succ, h`pred, h`links, h`linking, h`chain, h`stack
      ensures h.Valid() && h.linking == old(h.linking) && h.stack == old(h.stack) && unlinked == (i.ptr in ranks)
      ensures !unlinked ==>
                && h.Items() == items && At(h, ranks[i.pos.Front()])
                && h.RankOf() - {pos.first, pos.second} == ranks - {pos.first, pos.second}
      ensures unlinked ==>
                var k := ranks[i.ptr];
                && k < |items| && items[k] == i.ptr && h.Items() == Remove(items, k) && At(h, k)
                && h.RankOf() == Lowered(ranks, i.ptr)
                     [pos.first := k][pos.second := if k < |h.Items()| then k + 1 else 0]
    {
      unlinked := UnlinkOrCopy(h, i);
      if unlinked {
        StepOverGap(h, i.ptr, Lowered(ranks, i.ptr));
      } else {
        StepOn(h, ranks, ranks[i.pos.first], ranks[i.pos.second]);
      }
    }

    /** The second half, where there was nothing to unlink. */
    method StepOn(h: Heap, ghost ranks: map<nat, nat>, ghost a: nat, ghost b: nat)
      requires h.Valid() && pos.Ready(h) && pos.Linked(h) && h.RankOf() == ranks[pos.first := a][pos.second := b]
      modifies this, pos, h`succ, h`pred, h`links, h`linking, h`chain
      ensures h.Valid() && h.linking == old(h.linking) && h.Items() == old(h.Items())
      ensures At(h, old(h.RankOf())[old(pos.Front())])
      ensures h.RankOf() - {pos.first, pos.second} == ranks - {pos.first, pos.second}
    {
      Next(h);
    }

    /** The second half, after the element `e` was unlinked from between the markers: steps on, and drops the handle. */
    method StepOverGap(h: Heap, e: nat, ghost ranks: map<nat, nat>)
      requires h.Valid() && pos.Ready(h) && pos.Linked(h) && !pos.swap && 0 < e < |h.kind| && 0 < h.stack[e]
      requires h.RankOf()[pos.first] == h.RankOf()[pos.second] <= |h.Items()|
      requires h.RankOf() == ranks[pos.first := h.RankOf()[pos.first]][pos.second := h.RankOf()[pos.first]]
      modifies this, pos, h`succ, h`pred, h`links, h`linking, h`chain, h`stack
      ensures h.Valid() && h.linking == old(h.linking) && h.Items() == old(h.Items())
      ensures h.stack == old(h.stack)[e := old(h.stack[e]) - 1]
      ensures var k := old(h.RankOf())[pos.first];
        At(h, k) && h.RankOf() == ranks[pos.first := k][pos.second := if k < |h.Items()| then k + 1 else 0]
    {
      ghost var k := h.RankOf()[pos.first];
      Overwritten(ranks[pos.first := k], pos.second, k, if k < |h.Items()| then k + 1 else 0);
      Next(h);
      h.Release(e);
    }
  }

  /** Three iterators with markers of their own. */
  ghost predicate Frame(h: Heap, i: Iterator, e: Iterator, out: Iterator)
    reads h`stack, h`linking
  {
    && Apart(i, e) && Apart(i, out) && Apart(e, out)
    && i.pos.Ready(h) && e.pos.Ready(h) && out.pos.Ready(h)
  }

  /** Erases the element of `i`: the result is built in `out`, while `i` still stands before the gap. */
  method EraseFor(h: Heap, i: Iterator, e: Iterator, out: Iterator, ghost k: nat) returns (r: Erasure)
    requires h.Valid() && h.Quiet() && Frame(h, i, e, out) && i.At(h, k) && k < |h.Items()| && e.At(h, |h.Items()|)
    modifies out, out.pos, h`succ, h`pred, h`links, h`linking, h`chain, h`stack
    ensures h.Valid() && h.stack == old(h.stack) && h.linking == old(h.linking)
    ensures r == Erased(old(h.Items())[k]) && h.Items() == Remove(old(h.Items()), k)
    ensures out.At(h, k) && e.At(h, |h.Items()|)
  {
    ItemRank(h.chain, h.kind, h.head, k);
    ghost var n := |h.Items()|;
    EndStays(h.Items(), h.RankOf(), e.pos.Back(), e.pos.Front(), i.ptr, out.pos.first, out.pos.second,
             k, if k < n - 1 then k + 1 else 0);
    r := out.EraseAt(h, i);
  }

  /** Erases the element of `i` and moves `i` on: the temporary iterator `out` is gone at the end. */
  method EraseAndAssign(h: Heap, i: Iterator, e: Iterator, out: Iterator, ghost k: nat) returns (r: Erasure)
    requires h.Valid() && h.Quiet() && Frame(h, i, e, out) && i.At(h, k) && k < |h.Items()| && e.At(h, |h.Items()|)
    modifies i, i.pos, out, out.pos, h`succ, h`pred, h`links, h`linking, h`chain, h`stack
    ensures h.Valid() && h.stack == old(h.stack) && h.linking == old(h.linking)
    ensures r == Erased(old(h.Items())[k]) && h.Items() == Remove(old(h.Items()), k)
    ensures i.At(h, k) && e.At(h, |h.Items()|) && out.pos.Unlinked(h)
  {
    r := EraseFor(h, i, e, out, k);
    MoveOn(h, i, e, out, k);
  }

  /** Assigns `out` to `i`, and is done with `out`. */
  method MoveOn(h: Heap, i: Iterator, ghost e: Iterator, out: Iterator, ghost k: nat)
    requires h.Valid() && Frame(h, i, e, out) && out.At(h, k) && e.At(h, |h.Items()|)
    modifies i, i.pos, out.pos, h`succ, h`pred, h`links, h`linking, h`chain
    ensures h.Valid() && h.linking == old(h.linking) && h.Items() == old(h.Items())
    ensures i.At(h, k) && e.At(h, |h.Items()|) && out.pos.Unlinked(h)
  {
    i.Assign(h, out, k);
    out.pos.Unlink(h);
  }

  /** One round of `remove_and_dispose_if`: what it disposed. */
  method Visit(h: Heap, p: nat -> bool, i: Iterator, e: Iterator, out: Iterator, ghost k: nat) returns (gone: seq<nat>)
    requires h.Valid() && h.Quiet() && Frame(h, i, e, out) && i.At(h, k) && k < |h.Items()| && e.At(h, |h.Items()|)
    requires out.pos.Unlinked(h)
    modifies i, i.pos, out, out.pos, h`succ, h`pred, h`links, h`linking, h`chain, h`stack
    ensures h.Valid() && h.stack == old(h.stack) && h.linking == old(h.linking)
    ensures gone == if p(old(h.Items())[k]) then [old(h.Items())[k]] else []
    ensures h.Items() == if gone != [] then Remove(old(h.Items()), k) else old(h.Items())
    ensures i.At(h, if gone != [] then k else k + 1) && e.At(h, |h.Items()|) && out.pos.Unlinked(h)
  {
    gone := [];
    if p(i.ptr) {
      var r := EraseAndAssign(h, i, e, out, k);
      gone := if r.Erased? then [r.e] else [];
    }
    if gone == [] {
      i.Next(h);
    }
  }

  /**
   * `remove_and_dispose_if(pred, disp)`: `i`, `e` and `out` are the iterators of its frame and of the
   * frames of the calls it makes, so six markers travel through the list while it is filtered.
   */
  method RemoveAndDisposeIf(h: Heap, p: nat -> bool, i: Iterator, e: Iterator, out: Iterator)
    returns (disposed: seq<nat>)
    requires h.Valid() && h.Quiet() && Frame(h, i, e, out)
    modifies i, i.pos, e, e.pos, out, out.pos, h`succ, h`pred, h`links, h`linking, h`chain, h`stack
    ensures h.Valid() && h.stack == old(h.stack) && h.linking == old(h.linking)
    ensures h.Items() == Kept(old(h.Items()), p) && disposed == Dropped(old(h.Items()), p)
    ensures i.pos.Unlinked(h) && e.pos.Unlinked(h) && out.pos.Unlinked(h)
  {
    out.pos.Unlink(h);
    Span(h, i, e, out);
    disposed := FilterSpan(h, p, i, e, out);
    i.pos.Unlink(h);
    e.pos.Unlink(h);
  }

  /** `i = begin(), e = end()`. */
  method Span(h: Heap, i: Iterator, e: Iterator, ghost out: Iterator)
    requires h.Valid() && Frame(h, i, e, out) && out.pos.Unlinked(h)
    modifies i, i.pos, e, e.pos, h`succ, h`pred, h`links, h`linking, h`chain
    ensures h.Valid() && h.linking == old(h.linking) && h.Items() == old(h.Items())
    ensures i.At(h, 0) && e.At(h, |h.Items()|) && out.pos.Unlinked(h)
  {
    i.Begin(h);
    e.End(h);
  }

  /** The body of the loop of `remove_and_dispose_if`: one more element of `was` is kept or dropped. */
  method Round(h: Heap, p: nat -> bool, i: Iterator, e: Iterator, out: Iterator, before: seq<nat>,
               ghost was: seq<nat>, ghost j: nat, ghost k: nat)
    returns (disposed: seq<nat>, ghost k': nat)
    requires h.Valid() && h.Quiet() && Frame(h, i, e, out) && i.At(h, k) && k != |h.Items()| && e.At(h, |h.Items()|)
    requires out.pos.Unlinked(h) && Filtered(was, p, j, h.Items(), before, k)
    modifies i, i.pos, out, out.pos, h`succ, h`pred, h`links, h`linking, h`chain, h`stack
    ensures h.Valid() && h.stack == old(h.stack) && h.linking == old(h.linking)
    ensures Filtered(was, p, j + 1, h.Items(), disposed, k') && j < |was|
    ensures i.At(h, k') && e.At(h, |h.Items()|) && out.pos.Unlinked(h)
  {
    FilteredStep(was, p, j, h.Items(), before, k);
    var gone := Visit(h, p, i, e, out, k);
    disposed := before + gone;
    k' := if gone != [] then k else k + 1;
    assert before + [] == before;
  }

  /** And the test of that loop: whether the end is reached. */
  method RoundAndTest(h: Heap, p: nat -> bool, i: Iterator, e: Iterator, out: Iterator, before: seq<nat>,
               ghost was: seq<nat>, ghost j: nat, ghost k: nat)
    returns (done: bool, disposed: seq<nat>, ghost k': nat)
    requires h.Valid() && h.Quiet() && Frame(h, i, e, out) && i.At(h, k) && k != |h.Items()| && e.At(h, |h.Items()|)
    requires out.pos.Unlinked(h) && Filtered(was, p, j, h.Items(), before, k)
    modifies i, i.pos, out, out.pos, h`succ, h`pred, h`links, h`linking, h`chain, h`stack
    ensures h.Valid() && h.stack == old(h.stack) && h.linking == old(h.linking)
    ensures Filtered(was, p, j + 1, h.Items(), disposed, k') && j < |was| && done == (k' == |h.Items()|)
    ensures i.At(h, k') && e.At(h, |h.Items()|) && out.pos.Unlinked(h)
  {
    disposed, k' := Round(h, p, i, e, out, before, was, j, k);
    done := i.Equals(h, e, k', |h.Items()|);
  }

  /** The loop of `remove_and_dispose_if`. */
  method FilterSpan(h: Heap, p: nat -> bool, i: Iterator, e: Iterator, out: Iterator) returns (disposed: seq<nat>)
    requires h.Valid() && h.Quiet() && Frame(h, i, e, out) && i.At(h, 0) && e.At(h, |h.Items()|) && out.pos.Unlinked(h)
    modifies i, i.pos, out, out.pos, h`succ, h`pred, h`links, h`linking, h`chain, h`stack
    ensures h.Valid() && h.stack == old(h.stack) && h.linking == old(h.linking) && out.pos.Unlinked(h)
    ensures h.Items() == Kept(old(h.Items()), p) && disposed == Dropped(old(h.Items()), p)
  {
    ghost var was := h.Items();
    ghost var j: nat, k: nat := 0, 0;
    disposed := [];
    var done := i.Equals(h, e, 0, |h.Items()|);
    while !done
      invariant h.Valid() && h.stack == old(h.stack) && h.linking == old(h.linking)
      invariant i.At(h, k) && e.At(h, |h.Items()|) && out.pos.Unlinked(h)
      invariant Filtered(was, p, j, h.Items(), disposed, k) && done == (k == |h.Items()|)
      decreases |was| - j, !done
    {
      done, disposed, k := RoundAndTest(h, p, i, e, out, disposed, was, j, k);
      j := j + 1;
    }
    FilteredEnd(was, p, j, h.Items(), disposed, k);
  }

  ghost predicate Apart(i: Iterator, o: Iterator) {
    i != o && i.pos != o.pos && {i.pos.first, i.pos.second} !! {o.pos.first, o.pos.second}
  }
}
