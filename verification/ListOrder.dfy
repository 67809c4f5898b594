/** The order in which the nodes of a chain stand, markers of equal rank included. */
module ListOrder {
  import opened ListElements
  import opened ListModel

  /** `x` stands before `y`; the head stands before all others. */
  predicate Precedes(chain: seq<nat>, x: nat, y: nat) {
    x in chain && y in chain && Place(chain, x) < Place(chain, y)
  }

  /** `x` has come in right behind `a`, and the order of the others has not changed. */
  ghost predicate BehindNow(was: seq<nat>, chain: seq<nat>, a: nat, x: nat) {
    forall y, z {:trigger Precedes(chain, y, z)} ::
      Precedes(chain, y, z) <==>
        if y == x then z != x && Precedes(was, a, z)
        else if z == x then y == a || Precedes(was, y, a)
        else Precedes(was, y, z)
  }

  /** `x` has come in right before `b`, which is not the head. */
  ghost predicate AheadNow(was: seq<nat>, chain: seq<nat>, b: nat, x: nat) {
    forall y, z {:trigger Precedes(chain, y, z)} ::
      Precedes(chain, y, z) <==>
        if y == x then z != x && (z == b || Precedes(was, b, z))
        else if z == x then Precedes(was, y, b)
        else Precedes(was, y, z)
  }

  /** `x` is gone, and the order of the others has not changed. */
  ghost predicate GoneNow(was: seq<nat>, chain: seq<nat>, x: nat) {
    forall y, z {:trigger Precedes(chain, y, z)} ::
      Precedes(chain, y, z) <==> y != x && z != x && Precedes(was, y, z)
  }

  /** The ranks of the nodes behind `a` have gone up by one, those of the others have stayed. */
  ghost predicate Raised(ranks: map<nat, nat>, ranks': map<nat, nat>, chain: seq<nat>, a: nat) {
    forall y {:trigger Precedes(chain, a, y)} ::
      y in ranks ==> y in ranks' && ranks'[y] == ranks[y] + if Precedes(chain, a, y) then 1 else 0
  }

  /** `y` stands behind the gap right behind `m`, or behind the one right before it. */
  predicate BehindGap(chain: seq<nat>, m: nat, after: bool, y: nat) { Precedes(chain, m, y) || (!after && y == m) }

  /** The ranks after an element came into that gap, but for two markers that were moved. */
  ghost predicate RaisedBehind(ranks: map<nat, nat>, ranks': map<nat, nat>, chain: seq<nat>, m: nat, after: bool,
                               x: nat, y: nat) {
    forall z {:trigger BehindGap(chain, m, after, z)} ::
      z in ranks && z != x && z != y ==>
        z in ranks' && ranks'[z] == ranks[z] + if BehindGap(chain, m, after, z) then 1 else 0
  }

  /** The order of all nodes but two markers is as it was, and `e` is in that gap. */
  ghost predicate InGap(was: seq<nat>, chain: seq<nat>, m: nat, after: bool, e: nat, x: nat, y: nat) {
    && (forall z {:trigger Precedes(chain, e, z)} ::
      z != e && z != x && z != y ==> (Precedes(chain, e, z) <==> BehindGap(was, m, after, z)))
    && (forall w, z {:trigger Precedes(chain, w, z)} ::
      w !in {e, x, y} && z !in {e, x, y} ==> (Precedes(chain, w, z) <==> Precedes(was, w, z)))
  }

  /** Two markers `x` and `y` have come into a gap, `y` first. */
  ghost predicate MarkersIn(was: seq<nat>, chain: seq<nat>, m: nat, after: bool, x: nat, y: nat) {
    && (forall z {:trigger Precedes(chain, y, z)} ::
      z != x && z != y ==> (Precedes(chain, y, z) <==> BehindGap(was, m, after, z)))
    && (forall w, z {:trigger Precedes(chain, w, z)} ::
      w !in {x, y} && z !in {x, y} ==> (Precedes(chain, w, z) <==> Precedes(was, w, z)))
  }

  /** Two markers have gone. */
  ghost predicate MarkersOut(was: seq<nat>, chain: seq<nat>, x: nat, y: nat) {
    forall w, z {:trigger Precedes(chain, w, z)} ::
      Precedes(chain, w, z) <==> w !in {x, y} && z !in {x, y} && Precedes(was, w, z)
  }

  /** An element that comes in right behind the first of the two markers fills the gap. */
  lemma GapFilled(was: seq<nat>, chain: seq<nat>, chain': seq<nat>, ranks: map<nat, nat>, ranks': map<nat, nat>,
                  m: nat, after: bool, e: nat, x: nat, y: nat, n: nat)
    requires MarkersIn(was, chain, m, after, x, y) && BehindNow(chain, chain', y, e)
    requires Raised(ranks[y := n][x := n], ranks', chain, y)
    ensures InGap(was, chain', m, after, e, x, y) && RaisedBehind(ranks, ranks', was, m, after, x, y)
  {
    forall z | z in ranks && z != x && z != y
      ensures z in ranks' && ranks'[z] == ranks[z] + if BehindGap(was, m, after, z) then 1 else 0
    {
      assert Precedes(chain, y, z) <==> BehindGap(was, m, after, z);
    }
  }

  /** The same, seen from before the two markers were unlinked from where they had been. */
  lemma GapBefore(was: seq<nat>, chain: seq<nat>, chain': seq<nat>, ranks: map<nat, nat>, ranks': map<nat, nat>,
                  m: nat, after: bool, e: nat, x: nat, y: nat)
    requires MarkersOut(was, chain, x, y) && m != x && m != y && m in ranks
    requires InGap(chain, chain', m, after, e, x, y) && RaisedBehind(ranks - {x, y}, ranks', chain, m, after, x, y)
    ensures InGap(was, chain', m, after, e, x, y) && RaisedBehind(ranks, ranks', was, m, after, x, y)
    ensures m in ranks' && ranks'[m] == ranks[m] + if after then 0 else 1
  {
    forall z | z != x && z != y
      ensures BehindGap(chain, m, after, z) <==> BehindGap(was, m, after, z)
    {
      assert Precedes(chain, m, z) <==> Precedes(was, m, z);
    }
    forall z | z in ranks && z != x && z != y
      ensures z in ranks' && ranks'[z] == ranks[z] + if BehindGap(was, m, after, z) then 1 else 0
    {
      assert BehindGap(chain, m, after, z) <==> BehindGap(was, m, after, z);
    }
    assert BehindGap(was, m, after, m) <==> !after;
  }

  lemma InsertPrecedes(chain: seq<nat>, head: nat, size: nat, j: nat, x: nat, y: nat, z: nat)
    requires Chain(chain, head, size) && 1 <= j < |chain| && x !in chain && 0 < x < size
    ensures Precedes(Insert(chain, j, x), y, z) <==>
      if y == x then z != x && z in chain && j <= Place(chain, z)
      else if z == x then y in chain && Place(chain, y) < j
      else Precedes(chain, y, z)
  {
    var chain' := Insert(chain, j, x);
    InsertChain(chain, head, size, j, x);
    assert chain'[j] == x;
    PlaceAt(chain', head, size, j);
    InsertContents(chain, j, x);
    assert forall w :: w in chain' ==> w == x || w in chain;
    if y in chain {
      InsertPlace(chain, head, size, j, x, y);
    }
    if z in chain {
      InsertPlace(chain, head, size, j, x, z);
    }
  }

  lemma InsertedBehind(chain: seq<nat>, head: nat, size: nat, a: nat, x: nat)
    requires Chain(chain, head, size) && a in chain && Place(chain, a) + 1 < |chain| && x !in chain && 0 < x < size
    ensures BehindNow(chain, Insert(chain, Place(chain, a) + 1, x), a, x)
  {
    var j := Place(chain, a) + 1;
    forall y, z
      ensures Precedes(Insert(chain, j, x), y, z) <==>
        if y == x then z != x && Precedes(chain, a, z)
        else if z == x then y == a || Precedes(chain, y, a)
        else Precedes(chain, y, z)
    {
      InsertPrecedes(chain, head, size, j, x, y, z);
      if y in chain && Place(chain, y) == Place(chain, a) {
        assert chain[Place(chain, y)] == y;
      }
    }
  }

  lemma InsertedAhead(chain: seq<nat>, head: nat, size: nat, b: nat, x: nat)
    requires Chain(chain, head, size) && b in chain && b != head && x !in chain && 0 < x < size
    ensures AheadNow(chain, Insert(chain, PlaceBefore(chain, b), x), b, x)
  {
    PlacesOf(chain, head, size, b);
    var j := PlaceBefore(chain, b);
    forall y, z
      ensures Precedes(Insert(chain, j, x), y, z) <==>
        if y == x then z != x && (z == b || Precedes(chain, b, z))
        else if z == x then Precedes(chain, y, b)
        else Precedes(chain, y, z)
    {
      InsertPrecedes(chain, head, size, j, x, y, z);
      if z in chain && Place(chain, z) == Place(chain, b) {
        assert chain[Place(chain, z)] == z;
      }
    }
  }

  lemma RemovedGone(chain: seq<nat>, head: nat, size: nat, k: nat)
    requires Chain(chain, head, size) && 0 < k < |chain| - 1
    ensures GoneNow(chain, Remove(chain, k), chain[k])
  {
    var chain' := Remove(chain, k);
    RemoveChain(chain, head, size, k);
    InsertRemoved(chain, k);
    forall y, z
      ensures Precedes(chain', y, z) <==> y != chain[k] && z != chain[k] && Precedes(chain, y, z)
    {
      InsertPrecedes(chain', head, size, k, chain[k], y, z);
    }
  }

  /** An element that comes in right behind `a` raises the ranks of the nodes behind that, and no others. */
  lemma RanksBehind(chain: seq<nat>, kind: seq<Kind>, head: nat, a: nat, e: nat)
    requires Chain(chain, head, |kind|) && a in chain && Place(chain, a) + 1 < |chain|
    requires e !in chain && 0 < e < |kind| && kind[e].Element?
    ensures Raised(Ranks(chain, kind), Ranks(Insert(chain, Place(chain, a) + 1, e), kind), chain, a)
  {
    var j := Place(chain, a) + 1;
    RanksAre(chain, kind);
    RanksAre(Insert(chain, j, e), kind);
    forall y | y in chain
      ensures y in Insert(chain, j, e)
      ensures Rank(Insert(chain, j, e), kind, y) == Rank(chain, kind, y) + if Precedes(chain, a, y) then 1 else 0
    {
      InsertRank(chain, kind, head, j, e, y);
    }
  }

  /** Linking an element right between two markers: the elements, the ranks and the order. */
  lemma ElementBetween(chain: seq<nat>, kind: seq<Kind>, head: nat, j: nat, e: nat)
    requires Chain(chain, head, |kind|) && 1 < j < |chain| - 1 && e !in chain && 0 < e < |kind| && kind[e].Element?
    requires kind[chain[j - 1]].Iterator? && kind[chain[j]].Iterator?
    ensures var chain', a, f, n := Insert(chain, j, e), chain[j - 1], chain[j], Upto(chain, kind, j);
      && n <= |Elements(chain, kind)| && Elements(chain', kind) == Insert(Elements(chain, kind), n, e)
      && a in Ranks(chain, kind) && Ranks(chain, kind)[a] == n
      && a in Ranks(chain', kind) && e in Ranks(chain', kind) && f in Ranks(chain', kind)
      && Ranks(chain', kind)[a] == Ranks(chain', kind)[e] == n && Ranks(chain', kind)[f] == n + 1
      && BehindNow(chain, chain', a, e) && Raised(Ranks(chain, kind), Ranks(chain', kind), chain, a)
  {
    PlaceAt(chain, head, |kind|, j - 1);
    LinkElementAt(chain, kind, head, j, e);
    InsertedBehind(chain, head, |kind|, chain[j - 1], e);
    RanksBehind(chain, kind, head, chain[j - 1], e);
  }

  /** Nodes of higher rank stand behind, nodes of lower rank before. */
  lemma RanksFollowOrder(chain: seq<nat>, kind: seq<Kind>, x: nat, y: nat)
    requires x in chain && y in chain && Rank(chain, kind, x) < Rank(chain, kind, y)
    ensures Precedes(chain, x, y)
  {
    if Place(chain, y) <= Place(chain, x) {
      UptoMonotone(chain, kind, Place(chain, y), Place(chain, x));
    }
  }

  /** So what came into a gap raised the nodes of higher rank by one, and left those of lower rank. */
  lemma RaisedByRank(
      chain: seq<nat>, kind: seq<Kind>, ranks': map<nat, nat>, m: nat, after: bool, x: nat, y: nat, z: nat)
    requires RaisedBehind(Ranks(chain, kind), ranks', chain, m, after, x, y)
    requires m in Ranks(chain, kind) && z in Ranks(chain, kind) && z != x && z != y
    ensures z in ranks'
    ensures Ranks(chain, kind)[m] < Ranks(chain, kind)[z] ==> ranks'[z] == Ranks(chain, kind)[z] + 1
    ensures Ranks(chain, kind)[z] < Ranks(chain, kind)[m] ==> ranks'[z] == Ranks(chain, kind)[z]
  {
    RanksAre(chain, kind);
    if Rank(chain, kind, m) < Rank(chain, kind, z) {
      RanksFollowOrder(chain, kind, m, z);
    } else if Rank(chain, kind, z) < Rank(chain, kind, m) {
      RanksFollowOrder(chain, kind, z, m);
    }
    assert BehindGap(chain, m, after, z) || !BehindGap(chain, m, after, z);
  }
}
