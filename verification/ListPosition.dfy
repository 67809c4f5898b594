/** Positions in a list: two iterator markers around a place, and iterators built on them. */
module ListPosition {
  import opened LinkedList
  import opened ListElements
  import opened ListModel
  import opened ListOrder

  /** Outcomes of linking next to a position; the same position for both roles throws `invalid_argument`. */
  datatype PositionLink = SamePosition | LinkedThere | AlreadyLinked

  /** `list::position`: two markers, `pos_`, and the bit that says which of them is in front. */
  class Position {
    const first: nat
    const second: nat
    var swap: bool

    constructor (first: nat, second: nat)
      ensures this.first == first && this.second == second
    {
      this.first, this.second := first, second;
    }

    function Front(): nat
      reads this`swap
    {
      if swap then second else first
    }

    function Back(): nat
      reads this`swap
    {
      if swap then first else second
    }

    ghost predicate Ready(h: Heap)
      reads h`stack, h`linking
    {
      first != second && h.Owned(first) && h.Owned(second)
    }

    ghost predicate Linked(h: Heap)
      reads h`chain
    {
      first in h.RankOf() && second in h.RankOf()
    }

    ghost predicate Unlinked(h: Heap)
      reads h`chain
    {
      first !in h.RankOf() && second !in h.RankOf()
    }

    method Unlink(h: Heap)
      requires h.Valid() && Ready(h)
      modifies this, h`succ, h`pred, h`links, h`chain
      ensures h.Valid() && Ready(h) && Unlinked(h) && !swap
      ensures h.Items() == old(h.Items()) && h.RankOf() == old(h.RankOf()) - {first, second}
      ensures MarkersOut(old(h.chain), h.chain, first, second)
    {
      var r := h.UnlinkMarker(first);
      r := h.UnlinkMarker(second);
      swap := false;
    }

    /** `link_around`: the back marker before `x`, the front marker behind it. */
    method LinkAround(h: Heap, x: nat) returns (r: bool)
      requires h.Valid() && Ready(h) && 0 < x < |h.kind| && x != first && x != second
      modifies this, h`succ, h`pred, h`links, h`linking, h`chain
      ensures h.Valid() && Ready(h) && h.linking == old(h.linking) && h.Items() == old(h.Items()) && !swap
      ensures r == (x in old(h.RankOf()))
      ensures !r ==> h.RankOf() == old(h.RankOf()) - {first, second}
      ensures r ==> h.RankOf() == old(h.RankOf())
                      [first := old(h.RankOf())[x] + if IsElement(h.kind, x) then 1 else 0]
                      [second := if x == h.head then |h.Items()| else old(h.RankOf())[x]]
    {
      ghost var ranks := h.RankOf();
      Unlink(h);
      r := Replace(h, x, ranks);
    }

    /** The markers, which had the places `ranks` tells, are put around `x`. */
    method Replace(h: Heap, x: nat, ghost ranks: map<nat, nat>) returns (r: bool)
      requires h.Valid() && Ready(h) && Unlinked(h) && !swap && 0 < x < |h.kind| && x != first && x != second
      requires h.RankOf() == ranks - {first, second}
      modifies this, h`succ, h`pred, h`links, h`linking, h`chain
      ensures h.Valid() && h.linking == old(h.linking) && h.Items() == old(h.Items()) && !swap
      ensures r == (x in ranks) && (!r ==> h.RankOf() == ranks - {first, second})
      ensures r ==> h.RankOf() == ranks
                      [first := ranks[x] + if IsElement(h.kind, x) then 1 else 0]
                      [second := if x == h.head then |h.Items()| else ranks[x]]
    {
      r := Surround(h, x);
      if r {
        RelinkedBoth(ranks, first, second, ranks[x] + if IsElement(h.kind, x) then 1 else 0,
                     if x == h.head then |h.Items()| else ranks[x]);
      }
    }

    /** The front marker behind `x`, the back marker before it. */
    method Surround(h: Heap, x: nat) returns (r: bool)
      requires h.Valid() && Ready(h) && Unlinked(h) && !swap && 0 < x < |h.kind| && x != first && x != second
      modifies this, h`succ, h`pred, h`links, h`linking, h`chain
      ensures h.Valid() && h.linking == old(h.linking) && h.Items() == old(h.Items()) && !swap
      ensures r == (x in old(h.RankOf()))
      ensures h.RankOf() ==
        if r then old(h.RankOf())
               [first := old(h.RankOf())[x] + if IsElement(h.kind, x) then 1 else 0]
               [second := if x == h.head then |h.Items()| else old(h.RankOf())[x]]
        else old(h.RankOf())
      ensures r ==> h.succ[second] == SWord(x, false, false)
    {
      var rs := h.LinkMarkerAfter(x, Front());
      if rs == LinkLost {
        return false;
      }
      rs := h.LinkMarkerBefore(x, Back());
      r := true;
    }

    /**
     * `step_forward`: over the next element, or over the head to the
     * start; returns what it stepped over, nil when unlinked.
     */
    method StepForward(h: Heap) returns (e: nat)
      requires h.Valid() && Ready(h) && (Linked(h) || Unlinked(h))
      modifies this, h`succ, h`pred, h`links, h`linking, h`chain
      ensures h.Valid() && Ready(h) && h.linking == old(h.linking) && h.Items() == old(h.Items())
      ensures old(Unlinked(h)) ==> e == 0 && swap == old(swap) && h.RankOf() == old(h.RankOf())
      ensures old(Linked(h)) ==>
                var n := old(h.RankOf())[old(Front())];
                && e == Nth(h.Items(), h.head, n) && 0 < e < |h.kind|
                  && (if n < |h.Items()| then h.kind[e].Element? else h.kind[e].Head?)
                && swap == !old(swap)
                && h.RankOf() == old(h.RankOf())[old(Back()) := if n < |h.Items()| then n + 1 else 0]
    {
      ghost var ranks := h.RankOf();
      var was := h.UnlinkMarker(Back());
      if !was {
        return 0;
      }
      e := LinkBehindNext(h, Front(), Back(), ranks);
      swap := !swap;
    }

    /** Links the marker `x`, which had its place in `ranks`, behind the next element after the marker `m`. */
    static method LinkBehindNext(h: Heap, m: nat, x: nat, ghost ranks: map<nat, nat>) returns (e: nat)
      requires h.Valid() && h.Owned(x) && m < |h.kind| && h.kind[m].Iterator?
      requires h.RankOf() == ranks - {x} && m in ranks && m != x
      modifies h`succ, h`pred, h`links, h`linking, h`chain
      ensures h.Valid() && h.linking == old(h.linking) && h.Items() == old(h.Items())
      ensures var n := ranks[m];
        && e == Nth(h.Items(), h.head, n) && 0 < e < |h.kind|
        && (if n < |h.Items()| then h.kind[e].Element? else h.kind[e].Head?)
        && h.RankOf() == ranks[x := if n < |h.Items()| then n + 1 else 0]
    {
      ghost var n := ranks[m];
      Relinked(ranks, x, if n < |h.Items()| then n + 1 else 0);
      e := h.SuccElem(m);
      var rs := h.LinkMarkerAfter(e, x);
    }

    /** Links the marker `x`, which had its place in `ranks`, before the next element before the marker `m`. */
    static method LinkBeforePrevious(h: Heap, m: nat, x: nat, ghost ranks: map<nat, nat>) returns (e: nat)
      requires h.Valid() && h.Owned(x) && m < |h.kind| && h.kind[m].Iterator?
      requires h.RankOf() == ranks - {x} && m in ranks && m != x
      modifies h`succ, h`pred, h`links, h`linking, h`chain
      ensures h.Valid() && h.linking == old(h.linking) && h.Items() == old(h.Items())
      ensures var n := ranks[m];
        && e == Pth(h.Items(), h.head, n) && 0 < e < |h.kind|
        && (if 0 < n <= |h.Items()| then h.kind[e].Element? else h.kind[e].Head?)
        && h.RankOf() == ranks[x := if 0 < n <= |h.Items()| then n - 1 else |h.Items()|]
    {
      ghost var n := ranks[m];
      Relinked(ranks, x, if 0 < n <= |h.Items()| then n - 1 else |h.Items()|);
      e := h.PredElem(m);
      var rs := h.LinkMarkerBefore(e, x);
    }

    /** `step_backward`: over the element before, or over the head to the end. */
    method StepBackward(h: Heap) returns (e: nat)
      requires h.Valid() && Ready(h) && (Linked(h) || Unlinked(h))
      modifies this, h`succ, h`pred, h`links, h`linking, h`chain
      ensures h.Valid() && Ready(h) && h.linking == old(h.linking) && h.Items() == old(h.Items())
      ensures old(Unlinked(h)) ==> e == 0 && swap == old(swap) && h.RankOf() == old(h.RankOf())
      ensures old(Linked(h)) ==>
                var n := old(h.RankOf())[old(Back())];
                && e == Pth(h.Items(), h.head, n) && 0 < e < |h.kind|
                && (if 0 < n <= |h.Items()| then h.kind[e].Element? else h.kind[e].Head?)
                && swap == !old(swap)
                && h.RankOf() == old(h.RankOf())[old(Front()) := if 0 < n <= |h.Items()| then n - 1 else |h.Items()|]
    {
      ghost var ranks := h.RankOf();
      var was := h.UnlinkMarker(Front());
      if !was {
        return 0;
      }
      e := LinkBeforePrevious(h, Back(), Front(), ranks);
      swap := !swap;
    }

    /** `list::init_begin`: around the first element, the back marker right behind the head. */
    method InitBegin(h: Heap) returns (e: nat)
      requires h.Valid() && Ready(h)
      modifies this, h`succ, h`pred, h`links, h`linking, h`chain
      ensures h.Valid() && Ready(h) && h.linking == old(h.linking) && h.Items() == old(h.Items()) && !swap
      ensures e == Nth(h.Items(), h.head, 0) && 0 < e < |h.kind|
        && (if 0 < |h.Items()| then h.kind[e].Element? else h.kind[e].Head?)
      ensures h.RankOf() == old(h.RankOf())[first := if 0 < |h.Items()| then 1 else 0][second := 0]
    {
      Unlink(h);
      e := PutFirst(h);
      RelinkedBoth(old(h.RankOf()), first, second, if 0 < |h.Items()| then 1 else 0, 0);
    }

    method PutFirst(h: Heap) returns (e: nat)
      requires h.Valid() && Ready(h) && Unlinked(h) && !swap
      modifies h`succ, h`pred, h`links, h`linking, h`chain
      ensures h.Valid() && h.linking == old(h.linking) && h.Items() == old(h.Items())
      ensures e == Nth(h.Items(), h.head, 0) && 0 < e < |h.kind|
        && (if 0 < |h.Items()| then h.kind[e].Element? else h.kind[e].Head?)
      ensures h.RankOf() == old(h.RankOf())[first := if 0 < |h.Items()| then 1 else 0][second := 0]
    {
      HeadRank(h.chain, h.kind, h.head);
      e := h.SuccElem(h.head);
      var rs := h.LinkMarkerAfter(e, Front());
      rs := h.LinkMarkerAfter(h.head, Back());
    }

    /** `list::init_end`: around the head. */
    method InitEnd(h: Heap) returns (e: nat)
      requires h.Valid() && Ready(h)
      modifies this, h`succ, h`pred, h`links, h`linking, h`chain
      ensures h.Valid() && Ready(h) && h.linking == old(h.linking) && h.Items() == old(h.Items()) && !swap
        && e == h.head
      ensures h.RankOf() == old(h.RankOf())[second := |h.Items()|][first := 0]
    {
      Unlink(h);
      e := PutLast(h);
      RelinkedBoth(old(h.RankOf()), second, first, |h.Items()|, 0);
    }

    method PutLast(h: Heap) returns (e: nat)
      requires h.Valid() && Ready(h) && Unlinked(h) && !swap
      modifies h`succ, h`pred, h`links, h`linking, h`chain
      ensures h.Valid() && h.linking == old(h.linking) && h.Items() == old(h.Items()) && e == h.head
      ensures h.RankOf() == old(h.RankOf())[second := |h.Items()|][first := 0]
    {
      HeadRank(h.chain, h.kind, h.head);
      var rs := h.LinkMarkerBefore(h.head, Back());
      HeadRank(h.chain, h.kind, h.head);
      rs := h.LinkMarkerAfter(h.head, Front());
      e := h.head;
    }

    /**
     * `operator==` for two positions: both unlinked, or both linked
     * with equally many elements before their back markers.
     */
    method Equals(h: Heap, o: Position) returns (r: bool)
      requires h.Valid() && Ready(h) && o.Ready(h) && Back() != o.Back()
      modifies h`succ, h`pred, h`links
      ensures h.Valid() && Ready(h)
      ensures r == if Back() in h.RankOf() && o.Back() in h.RankOf() then h.RankOf()[Back()] == h.RankOf()[o.Back()]
                   else Back() !in h.RankOf() && o.Back() !in h.RankOf()
    {
      RanksAre(h.chain, h.kind);
      var a, b := Back(), o.Back();
      var noA := h.IsUnlinked(a);
      var noB := h.IsUnlinked(b);
      if noA && noB {
        return true;
      }
      if noA || noB {
        return false;
      }
      r := CompareLinked(h, a, b);
    }

    /** The walk of `operator==` from two linked back markers: side by side, then each on its own. */
    static method CompareLinked(h: Heap, a: nat, b: nat) returns (r: bool)
      requires h.Valid() && a in h.chain && b in h.chain && a != b && a < |h.kind| && b < |h.kind|
      requires h.kind[a].Iterator? && h.kind[b].Iterator?
      modifies h`succ, h`pred, h`links
      ensures h.Valid() && r == (Rank(h.chain, h.kind, a) == Rank(h.chain, h.kind, b))
    {
      ghost var i, k: nat;
      var s1, s2;
      r, s1, s2, i, k := WalkTogether(h, a, b);
      if r {
        return true;
      }
      r, i := WalkOn(h, a, b, s1, i);
      if r {
        return true;
      }
      r, k := WalkOn(h, b, a, s2, k);
      if r {
        return true;
      }
      WalksMiss(h.chain, h.kind, h.head, a, b, i, k);
      return false;
    }

    static method WalkTogether(h: Heap, a: nat, b: nat)
      returns (met: bool, s1: nat, s2: nat, ghost i: nat, ghost k: nat)
      requires h.Valid() && a in h.chain && b in h.chain && a != b && a < |h.kind| && b < |h.kind|
      requires h.kind[a].Iterator? && h.kind[b].Iterator?
      modifies h`succ, h`pred, h`links
      ensures h.Valid() && (met ==> Rank(h.chain, h.kind, a) == Rank(h.chain, h.kind, b))
      ensures !met ==> Walked(h.chain, h.kind, Place(h.chain, a), i, b) && h.chain[i] == s1
      ensures !met ==> Walked(h.chain, h.kind, Place(h.chain, b), k, a) && h.chain[k] == s2
    {
      s1, i := WalkFrom(h, a, b);
      s2, k := WalkFrom(h, b, a);
      while h.kind[s1].Iterator? && h.kind[s2].Iterator?
        invariant h.Valid()
        invariant Walked(h.chain, h.kind, Place(h.chain, a), i, b) && h.chain[i] == s1
        invariant Walked(h.chain, h.kind, Place(h.chain, b), k, a) && h.chain[k] == s2
        decreases |h.chain| - i
      {
        if s1 == b {
          WalkMeets(h.chain, h.kind, h.head, a, i, b);
          met := true;
          return;
        }
        if s2 == a {
          WalkMeets(h.chain, h.kind, h.head, b, k, a);
          met := true;
          return;
        }
        s1, i := WalkNext(h, a, b, s1, i);
        s2, k := WalkNext(h, b, a, s2, k);
      }
      met := false;
    }

    static method WalkFrom(h: Heap, a: nat, ghost b: nat) returns (s: nat, ghost i: nat)
      requires h.Valid() && a in h.chain && a < |h.kind|
      modifies h`succ, h`pred, h`links
      ensures h.Valid() && Walked(h.chain, h.kind, Place(h.chain, a), i, b) && h.chain[i] == s
    {
      PlacesOf(h.chain, h.head, |h.kind|, a);
      s := h.SuccAt(a, Place(h.chain, a));
      i := Place(h.chain, a) + 1;
    }

    static method WalkNext(h: Heap, ghost a: nat, ghost b: nat, from: nat, ghost start: nat)
      returns (s: nat, ghost i: nat)
      requires h.Valid() && a in h.chain && a < |h.kind|
      requires Walked(h.chain, h.kind, Place(h.chain, a), start, b) && h.chain[start] == from
        && h.kind[from].Iterator? && from != b
      modifies h`succ, h`pred, h`links
      ensures h.Valid() && i == start + 1 && Walked(h.chain, h.kind, Place(h.chain, a), i, b) && h.chain[i] == s
    {
      WalkStep(h.chain, h.kind, h.head, Place(h.chain, a), start, b);
      s := h.SuccAt(from, start);
      i := start + 1;
    }

    static method WalkOn(h: Heap, a: nat, b: nat, from: nat, ghost start: nat) returns (met: bool, ghost i: nat)
      requires h.Valid() && a in h.chain && a < |h.kind| && b < |h.kind| && h.kind[a].Iterator? && h.kind[b].Iterator?
      requires Walked(h.chain, h.kind, Place(h.chain, a), start, b) && h.chain[start] == from
      modifies h`succ, h`pred, h`links
      ensures h.Valid() && (met ==> b in h.chain && Rank(h.chain, h.kind, a) == Rank(h.chain, h.kind, b))
      ensures !met ==> Walked(h.chain, h.kind, Place(h.chain, a), i, b) && !h.kind[h.chain[i]].Iterator?
    {
      var s := from;
      i := start;
      while h.kind[s].Iterator?
        invariant h.Valid() && Walked(h.chain, h.kind, Place(h.chain, a), i, b) && h.chain[i] == s
        decreases |h.chain| - i
      {
        if s == b {
          WalkMeets(h.chain, h.kind, h.head, a, i, b);
          met := true;
          return;
        }
        s, i := WalkNext(h, a, b, s, i);
      }
      met := false;
    }

    /** `operator=`: each marker goes behind its counterpart. */
    method Assign(h: Heap, o: Position)
      requires h.Valid() && Ready(h) && o.Ready(h) && {first, second} !! {o.first, o.second}
      modifies this, h`succ, h`pred, h`links, h`linking, h`chain
      ensures h.Valid() && Ready(h) && h.linking == old(h.linking) && h.Items() == old(h.Items()) && swap == o.swap
      ensures h.RankOf() == Assigned(Assigned(old(h.RankOf()), first, o.first), second, o.second)
      ensures old(o.Linked(h)) ==>
                h.RankOf() == old(h.RankOf())[first := old(h.RankOf())[o.first]][second := old(h.RankOf())[o.second]]
    {
      AssignMarker(h, first, o.first);
      AssignMarker(h, second, o.second);
      swap := o.swap;
    }

    /** `iter_link::operator=`. */
    static method AssignMarker(h: Heap, x: nat, o: nat)
      requires h.Valid() && h.Owned(x) && h.Owned(o) && x != o
      modifies h`succ, h`pred, h`links, h`linking, h`chain
      ensures h.Valid() && h.linking == old(h.linking) && h.Items() == old(h.Items())
      ensures h.RankOf() == Assigned(old(h.RankOf()), x, o)
    {
      if o in h.RankOf() {
        Relinked(h.RankOf(), x, h.RankOf()[o]);
      }
      var r := h.UnlinkMarker(x);
      RanksAre(h.chain, h.kind);
      var loose := h.IsUnlinked(o);
      if !loose {
        var rv := h.LinkMarkerAfter(o, x);
      }
    }

    /**
     * `list::unlink`: puts this position around the element `e`, then unlinks `e` from between the
     * markers. The caller gets a handle on `e`, besides the `expected` ones it had.
     */
    method UnlinkAt(h: Heap, e: nat, expected: nat) returns (unlinked: bool)
      requires h.Valid() && Ready(h) && 0 < e < |h.kind| && h.kind[e].Element? && h.stack[e] == expected
      modifies this, h`succ, h`pred, h`links, h`linking, h`chain, h`stack
      ensures h.Valid() && Ready(h) && h.linking == old(h.linking) && !swap && unlinked == (e in old(h.RankOf()))
      ensures !unlinked ==>
                h.stack == old(h.stack) && h.Items() == old(h.Items())
                  && h.RankOf() == old(h.RankOf()) - {first, second}
      ensures unlinked ==>
                var k := old(h.RankOf())[e];
                && h.stack == old(h.stack)[e := expected + 1] && h.links[e] == expected + 1
                && k < |old(h.Items())| && old(h.Items())[k] == e && h.Items() == Remove(old(h.Items()), k)
                && h.RankOf() == Lowered(old(h.RankOf()), e)[first := k][second := k]
    {
      Unlink(h);
      unlinked := TakeBetween(h, e, expected, old(h.RankOf()));
    }

    /** The rest of that, after this position, at `ranks` before, was unlinked. */
    method TakeBetween(h: Heap, e: nat, expected: nat, ghost ranks: map<nat, nat>) returns (unlinked: bool)
      requires h.Valid() && Ready(h) && 0 < e < |h.kind| && h.kind[e].Element? && h.stack[e] == expected && !swap
      requires h.RankOf() == ranks - {first, second}
      modifies this, h`succ, h`pred, h`links, h`linking, h`chain, h`stack
      ensures h.Valid() && Ready(h) && h.linking == old(h.linking) && !swap && unlinked == (e in ranks)
      ensures !unlinked ==> h.stack == old(h.stack) && h.Items() == old(h.Items()) && h.RankOf() == old(h.RankOf())
      ensures unlinked ==>
                var k := ranks[e];
                && h.stack == old(h.stack)[e := expected + 1] && h.links[e] == expected + 1
                && k < |old(h.Items())| && old(h.Items())[k] == e && h.Items() == Remove(old(h.Items()), k)
                && h.RankOf() == Lowered(ranks, e)[first := k][second := k]
    {
      h.Hold(e);
      unlinked := Surround(h, e);
      if !unlinked {
        h.Release(e);
        return false;
      }
      RemoveBetween(h, e, expected + 1, ranks);
    }

    /** Unlinks the element `e` from between the markers, which were put around it on top of `ranks`. */
    method RemoveBetween(h: Heap, e: nat, handles: nat, ghost ranks: map<nat, nat>)
      requires h.Valid() && !swap && 0 < e < |h.kind| && h.kind[e].Element? && h.stack[e] == handles
      requires 0 < second < |h.kind| && h.succ[second] == SWord(e, false, false)
      requires e in ranks && e != first && e != second && first != second
      requires h.RankOf() == (ranks - {first, second})[first := ranks[e] + 1][second := ranks[e]]
      modifies h`succ, h`pred, h`links, h`chain
      ensures h.Valid() && h.links[e] == handles
      ensures var k := ranks[e];
        && k < |old(h.Items())| && old(h.Items())[k] == e && h.Items() == Remove(old(h.Items()), k)
        && h.RankOf() == Lowered(ranks, e)[first := k][second := k]
    {
      ErasedRanks(ranks, e, first, second);
      var ur := h.UnlinkElement(Back(), e, handles);
    }

    /**
     * `list::link_after(p, e, out)`, with this position as `out`: the element `e` comes right behind
     * the front marker of `p`, and this position is around it.
     */
    method LinkAfterPosition(h: Heap, p: Position, e: nat) returns (r: PositionLink)
      requires h.Valid() && Ready(h) && p.Ready(h) && p.Linked(h) && 0 < e < |h.kind| && h.kind[e].Element?
      requires p != this ==> {first, second} !! {p.first, p.second}
      modifies this, h`succ, h`pred, h`links, h`linking, h`chain
      ensures h.Valid() && h.linking == old(h.linking)
      ensures r == if p == this then SamePosition
                   else if old(h.linking)[e] || e in old(h.RankOf()) then AlreadyLinked else LinkedThere
      ensures r == SamePosition ==> h.chain == old(h.chain)
      ensures r == AlreadyLinked ==> h.Items() == old(h.Items()) && h.RankOf() == old(h.RankOf()) - {first, second}
      ensures r == LinkedThere ==>
                var m, n := old(p.Front()), old(h.RankOf())[old(p.Front())];
                && n <= |old(h.Items())| && h.Items() == Insert(old(h.Items()), n, e) && Around(h, e, n)
                && m in h.RankOf() && h.RankOf()[m] == n
                && InGap(old(h.chain), h.chain, m, true, e, first, second)
                && RaisedBehind(old(h.RankOf()), h.RankOf(), old(h.chain), m, true, first, second)
    {
      if p == this {
        return SamePosition;
      }
      Unlink(h);
      ghost var was := h.chain;
      r := PutAlong(h, p.Front(), e, true);
      if r == LinkedThere {
        GapBefore(old(h.chain), was, h.chain, old(h.RankOf()), h.RankOf(), p.Front(), true, e, first, second);
      }
    }

    /** `list::link_before(p, e, out)`: the element `e` comes right before the back marker of `p`. */
    method LinkBeforePosition(h: Heap, p: Position, e: nat) returns (r: PositionLink)
      requires h.Valid() && Ready(h) && p.Ready(h) && p.Linked(h) && 0 < e < |h.kind| && h.kind[e].Element?
      requires p != this ==> {first, second} !! {p.first, p.second}
      modifies this, h`succ, h`pred, h`links, h`linking, h`chain
      ensures h.Valid() && h.linking == old(h.linking)
      ensures r == if p == this then SamePosition
                   else if old(h.linking)[e] || e in old(h.RankOf()) then AlreadyLinked else LinkedThere
      ensures r == SamePosition ==> h.chain == old(h.chain)
      ensures r == AlreadyLinked ==> h.Items() == old(h.Items()) && h.RankOf() == old(h.RankOf()) - {first, second}
      ensures r == LinkedThere ==>
                var m, n := old(p.Back()), old(h.RankOf())[old(p.Back())];
                && n <= |old(h.Items())| && h.Items() == Insert(old(h.Items()), n, e) && Around(h, e, n)
                && m in h.RankOf() && h.RankOf()[m] == n + 1
                && InGap(old(h.chain), h.chain, m, false, e, first, second)
                && RaisedBehind(old(h.RankOf()), h.RankOf(), old(h.chain), m, false, first, second)
    {
      if p == this {
        return SamePosition;
      }
      Unlink(h);
      ghost var was := h.chain;
      r := PutAlong(h, p.Back(), e, false);
      if r == LinkedThere {
        GapBefore(old(h.chain), was, h.chain, old(h.RankOf()), h.RankOf(), p.Back(), false, e, first, second);
      }
    }

    /** This position is around the element `e` of rank `n`. */
    ghost predicate Around(h: Heap, e: nat, n: nat)
      reads this`swap, h`chain
    {
      && Linked(h) && e in h.RankOf()
      && h.RankOf()[Back()] == h.RankOf()[e] == n && h.RankOf()[Front()] == n + 1
    }

    /** The back marker behind the marker `m`, the front marker behind it. */
    method PutBehind(h: Heap, m: nat)
      requires h.Valid() && Ready(h) && Unlinked(h) && !swap && h.Owned(m) && m in h.RankOf()
      modifies h`succ, h`pred, h`links, h`linking, h`chain
      ensures h.Valid() && h.linking == old(h.linking) && h.Items() == old(h.Items())
      ensures h.RankOf() == old(h.RankOf())[second := old(h.RankOf())[m]][first := old(h.RankOf())[m]]
      ensures h.succ[second] == SWord(first, false, false)
      ensures MarkersIn(old(h.chain), h.chain, m, true, first, second)
    {
      var lr := h.LinkMarkerAfter(m, Back());
      lr := h.LinkMarkerAfter(Back(), Front());
    }

    /** The front marker before the marker `m`, the back marker before it. */
    method PutBefore(h: Heap, m: nat)
      requires h.Valid() && Ready(h) && Unlinked(h) && !swap && h.Owned(m) && m in h.RankOf() && m != h.head
      modifies h`succ, h`pred, h`links, h`linking, h`chain
      ensures h.Valid() && h.linking == old(h.linking) && h.Items() == old(h.Items())
      ensures h.RankOf() == old(h.RankOf())[second := old(h.RankOf())[m]][first := old(h.RankOf())[m]]
      ensures h.succ[second] == SWord(first, false, false)
      ensures MarkersIn(old(h.chain), h.chain, m, false, first, second)
    {
      var lr := h.LinkMarkerBefore(m, Front());
      lr := h.LinkMarkerBefore(Front(), Back());
      Swapped(old(h.RankOf()), first, second, old(h.RankOf())[m]);
    }

    static lemma Swapped(ranks: map<nat, nat>, x: nat, y: nat, r: nat)
      ensures ranks[x := r][y := r] == ranks[y := r][x := r]
      ensures x !in ranks && y !in ranks ==> ranks[y := r][x := r] - {x, y} == ranks
    {}

    /** Links the element `e` right behind the marker `m`, or right before it, between the two markers. */
    method PutAlong(h: Heap, m: nat, e: nat, after: bool) returns (r: PositionLink)
      requires h.Valid() && Ready(h) && Unlinked(h) && !swap && 0 < e < |h.kind| && h.kind[e].Element?
      requires h.Owned(m) && m in h.RankOf() && (!after ==> m != h.head)
      modifies this, h`succ, h`pred, h`links, h`linking, h`chain
      ensures h.Valid() && h.linking == old(h.linking)
      ensures r == if old(h.linking)[e] || e in old(h.RankOf()) then AlreadyLinked else LinkedThere
      ensures r == AlreadyLinked ==> h.Items() == old(h.Items()) && h.RankOf() == old(h.RankOf())
      ensures r == LinkedThere ==>
        var n := old(h.RankOf())[m];
        && n <= |old(h.Items())| && h.Items() == Insert(old(h.Items()), n, e) && Around(h, e, n)
        && InGap(old(h.chain), h.chain, m, after, e, first, second)
        && RaisedBehind(old(h.RankOf()), h.RankOf(), old(h.chain), m, after, first, second)
    {
      ghost var ranks, n := h.RankOf(), h.RankOf()[m];
      if after {
        PutBehind(h, m);
      } else {
        PutBefore(h, m);
      }
      ghost var was := h.chain;
      r := PutElement(h, e, after, ranks, n);
      if r == LinkedThere {
        GapFilled(old(h.chain), was, h.chain, ranks, h.RankOf(), m, after, e, first, second, n);
      }
    }

    /** Links the element `e` between the two markers, which have the rank `n` on top of `ranks`. */
    method PutElement(h: Heap, e: nat, after: bool, ghost ranks: map<nat, nat>, ghost n: nat) returns (r: PositionLink)
      requires h.Valid() && Ready(h) && !swap && 0 < e < |h.kind| && h.kind[e].Element? && first !in ranks
        && second !in ranks
      requires h.RankOf() == ranks[second := n][first := n] && h.succ[second] == SWord(first, false, false)
      modifies this, h`succ, h`pred, h`links, h`linking, h`chain
      ensures h.Valid() && h.linking == old(h.linking)
      ensures r == if old(h.linking)[e] || e in ranks then AlreadyLinked else LinkedThere
      ensures r == AlreadyLinked ==> h.Items() == old(h.Items()) && h.RankOf() == ranks
      ensures r == LinkedThere ==>
                && n <= |old(h.Items())| && h.Items() == Insert(old(h.Items()), n, e) && Around(h, e, n)
                && BehindNow(old(h.chain), h.chain, second, e)
                && Raised(old(h.RankOf()), h.RankOf(), old(h.chain), second)
    {
      var lr := h.LinkElementBetween(Back(), e, Front(), after);
      if lr == LinkTwice {
        Swapped(ranks, first, second, n);
        Unlink(h);
        return AlreadyLinked;
      }
      return LinkedThere;
    }

    /** `list::iterator_to`: puts this position around the element `e`; false when it is being linked or not linked. */
    method ToElement(h: Heap, e: nat) returns (r: bool)
      requires h.Valid() && Ready(h) && 0 < e < |h.kind| && h.kind[e].Element?
      modifies this, h`succ, h`pred, h`links, h`linking, h`chain
      ensures h.Valid() && h.linking == old(h.linking) && h.Items() == old(h.Items())
      ensures r == (!old(h.linking)[e] && e in old(h.RankOf()))
      ensures if r then Around(h, e, old(h.RankOf())[e]) else h.RankOf() == old(h.RankOf()) - {first, second}
      ensures r ==> var k := old(h.RankOf())[e]; h.RankOf() == old(h.RankOf())[first := k + 1][second := k]
    {
      Unlink(h);
      if h.linking[e] {
        return false;
      }
      var lr := h.LinkMarkerBefore(e, Back());
      if lr == LinkLost {
        return false;
      }
      lr := h.LinkMarkerAfter(e, Front());
      r := true;
    }
  }
}
