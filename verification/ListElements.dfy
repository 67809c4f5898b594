/**
 * What a chain means to the user of the list: the sequence of its elements, and for every iterator
 * marker its rank, the number of elements before it.
 */
module ListElements {
  import opened ListLine
  import opened ListModel

  predicate IsElement(kind: seq<Kind>, x: nat) {
    x < |kind| && kind[x].Element?
  }

  /** The nodes of a chain without head and iterator markers. */
  function Elements(chain: seq<nat>, kind: seq<Kind>): seq<nat> {
    if chain == [] then []
    else if IsElement(kind, chain[0]) then [chain[0]] + Elements(chain[1..], kind)
    else Elements(chain[1..], kind)
  }

  /** The number of elements among the first `j` nodes. */
  function Upto(chain: seq<nat>, kind: seq<Kind>, j: nat): nat
    requires j <= |chain|
  {
    |Elements(chain[..j], kind)|
  }

  /** The number of elements before a node. */
  function Rank(chain: seq<nat>, kind: seq<Kind>, y: nat): nat
    requires y in chain
  {
    Upto(chain, kind, Place(chain, y))
  }

  lemma {:induction false} ElementsConcat(a: seq<nat>, b: seq<nat>, kind: seq<Kind>)
    ensures Elements(a + b, kind) == Elements(a, kind) + Elements(b, kind)
  {
    if a == [] {
      assert a + b == b;
    } else {
      assert (a + b)[1..] == a[1..] + b;
      ElementsConcat(a[1..], b, kind);
    }
  }

  /** Every element of a chain is found at its rank. */
  lemma ElementsSplit(chain: seq<nat>, kind: seq<Kind>, j: nat)
    requires j < |chain|
    ensures Upto(chain, kind, j + 1) == Upto(chain, kind, j) + if IsElement(kind, chain[j]) then 1 else 0
    ensures Upto(chain, kind, j + 1) <= |Elements(chain, kind)|
    ensures IsElement(kind, chain[j]) ==> Elements(chain, kind)[Upto(chain, kind, j)] == chain[j]
  {
    assert chain == chain[..j] + ([chain[j]] + chain[j + 1..]);
    ElementsConcat(chain[..j], [chain[j]] + chain[j + 1..], kind);
    ElementsConcat([chain[j]], chain[j + 1..], kind);
    assert chain[..j + 1] == chain[..j] + [chain[j]];
    ElementsConcat(chain[..j], [chain[j]], kind);
  }

  lemma {:induction false} UptoMonotone(chain: seq<nat>, kind: seq<Kind>, i: nat, j: nat)
    requires i <= j <= |chain|
    ensures Upto(chain, kind, i) <= Upto(chain, kind, j) <= |Elements(chain, kind)|
  {
    assert chain[..j] == chain[..i] + chain[i..j];
    ElementsConcat(chain[..i], chain[i..j], kind);
    assert chain == chain[..j] + chain[j..];
    ElementsConcat(chain[..j], chain[j..], kind);
  }

  /** Between two places of equal count there is no element. */
  lemma {:induction false} NoneBetween(chain: seq<nat>, kind: seq<Kind>, i: nat, j: nat)
    requires i <= j <= |chain|
    ensures Upto(chain, kind, i) == Upto(chain, kind, j) <==> forall q :: i <= q < j ==> !IsElement(kind, chain[q])
    decreases j - i
  {
    if i < j {
      ElementsSplit(chain, kind, j - 1);
      UptoMonotone(chain, kind, i, j - 1);
      NoneBetween(chain, kind, i, j - 1);
    }
  }

  // ---------------------------------------------------------------- inserting and removing a node

  lemma InsertElements(chain: seq<nat>, kind: seq<Kind>, j: nat, x: nat)
    requires j <= |chain|
    ensures Upto(chain, kind, j) <= |Elements(chain, kind)|
    ensures Elements(Insert(chain, j, x), kind)
         == if IsElement(kind, x) then Insert(Elements(chain, kind), Upto(chain, kind, j), x) else Elements(chain, kind)
  {
    assert chain == chain[..j] + chain[j..];
    WithoutOne(chain[..j], x, chain[j..], kind);
    InsertMiddle(Elements(chain[..j], kind), x, Elements(chain[j..], kind));
    assert Elements(chain[..j], kind) + [] == Elements(chain[..j], kind);
  }

  lemma InsertMiddle(a: seq<nat>, x: nat, b: seq<nat>)
    ensures Insert(a + b, |a|, x) == a + [x] + b
  {}

  lemma RemoveElements(chain: seq<nat>, kind: seq<Kind>, k: nat)
    requires k < |chain|
    ensures IsElement(kind, chain[k]) ==> Upto(chain, kind, k) < |Elements(chain, kind)|
    ensures Elements(Remove(chain, k), kind)
         == if IsElement(kind, chain[k]) then Remove(Elements(chain, kind), Upto(chain, kind, k))
           else Elements(chain, kind)
  {
    assert chain == chain[..k] + [chain[k]] + chain[k + 1..];
    WithoutOne(chain[..k], chain[k], chain[k + 1..], kind);
    RemoveMiddle(Elements(chain[..k], kind), chain[k], Elements(chain[k + 1..], kind));
    assert Elements(chain[..k], kind) + [] == Elements(chain[..k], kind);
  }

  lemma RemoveMiddle(a: seq<nat>, x: nat, b: seq<nat>)
    ensures Remove(a + [x] + b, |a|) == a + b
  {}

  lemma WithoutOne(front: seq<nat>, x: nat, back: seq<nat>, kind: seq<Kind>)
    ensures Elements(front + back, kind) == Elements(front, kind) + Elements(back, kind)
    ensures Elements(front + [x] + back, kind) ==
      Elements(front, kind) + (if IsElement(kind, x) then [x] else []) + Elements(back, kind)
  {
    ElementsConcat(front, back, kind);
    ElementsConcat(front + [x], back, kind);
    ElementsConcat(front, [x], kind);
  }

  lemma FirstElements(chain: seq<nat>, kind: seq<Kind>, x: nat)
    requires chain != [] && !IsElement(kind, chain[0]) && IsElement(kind, x)
    ensures Elements(Insert(chain, 1, x), kind) == [x] + Elements(chain, kind)
  {
    InsertElements(chain, kind, 1, x);
    ElementsSplit(chain, kind, 0);
  }

  /** The places of the other nodes after an insertion. */
  lemma InsertPlace(chain: seq<nat>, head: nat, size: nat, j: nat, x: nat, y: nat)
    requires Chain(chain, head, size) && 1 <= j < |chain| && x !in chain && 0 < x < size && y in chain
    ensures Chain(Insert(chain, j, x), head, size) && y in Insert(chain, j, x)
    ensures Place(Insert(chain, j, x), y) == Place(chain, y) + if Place(chain, y) < j then 0 else 1
  {
    var chain' := Insert(chain, j, x);
    InsertChain(chain, head, size, j, x);
    PlacesOf(chain, head, size, y);
    var q := Place(chain, y);
    var q' := if q < j then q else q + 1;
    assert chain'[q'] == y;
    PlaceAt(chain', head, size, q');
  }

  lemma InsertUpto(chain: seq<nat>, kind: seq<Kind>, j: nat, x: nat, q: nat)
    requires j <= |chain| && q <= |chain|
    ensures q <= j ==> Upto(Insert(chain, j, x), kind, q) == Upto(chain, kind, q)
    ensures j <= q ==>
      Upto(Insert(chain, j, x), kind, q + 1) == Upto(chain, kind, q) + if IsElement(kind, x) then 1 else 0
  {
    var chain' := Insert(chain, j, x);
    if q <= j {
      assert chain'[..q] == chain[..q];
    }
    if j <= q {
      var front := chain[..q];
      assert chain'[..q + 1] == Insert(front, j, x);
      InsertElements(front, kind, j, x);
    }
  }

  lemma InsertUptoAt(chain: seq<nat>, kind: seq<Kind>, j: nat, x: nat, q: nat, q': nat)
    requires j <= |chain| && q <= |chain| && q' == q + if q < j then 0 else 1
    ensures q' <= |Insert(chain, j, x)|
    ensures Upto(Insert(chain, j, x), kind, q') == Upto(chain, kind, q) + if IsElement(kind, x) && j <= q then 1 else 0
  {
    InsertUpto(chain, kind, j, x, q);
  }

  lemma InsertRank(chain: seq<nat>, kind: seq<Kind>, head: nat, j: nat, x: nat, y: nat)
    requires Chain(chain, head, |kind|) && 1 <= j < |chain| && x !in chain && 0 < x < |kind| && y in chain
    ensures y in Insert(chain, j, x)
    ensures Rank(Insert(chain, j, x), kind, y)
         == Rank(chain, kind, y) + if IsElement(kind, x) && j <= Place(chain, y) then 1 else 0
  {
    InsertPlace(chain, head, |kind|, j, x, y);
    InsertUptoAt(chain, kind, j, x, Place(chain, y), Place(Insert(chain, j, x), y));
  }

  /**
   * Linking an iterator marker behind `j` nodes: the elements and all
   * other ranks stay, its own is the count before it.
   */
  lemma InsertMarker(chain: seq<nat>, kind: seq<Kind>, head: nat, j: nat, x: nat)
    requires Chain(chain, head, |kind|) && 1 <= j < |chain| && x !in chain && 0 < x < |kind| && !IsElement(kind, x)
    ensures var chain' := Insert(chain, j, x);
      && Elements(chain', kind) == Elements(chain, kind)
      && x in chain' && Rank(chain', kind, x) == Upto(chain, kind, j)
      && (forall y :: y in chain' <==> y == x || y in chain)
      && (forall y :: y in chain ==> Rank(chain', kind, y) == Rank(chain, kind, y))
  {
    var chain' := Insert(chain, j, x);
    InsertElements(chain, kind, j, x);
    InsertChain(chain, head, |kind|, j, x);
    InsertContents(chain, j, x);
    assert chain'[j] == x;
    PlaceAt(chain', head, |kind|, j);
    assert chain'[..j] == chain[..j];
    forall y | y in chain
      ensures Rank(chain', kind, y) == Rank(chain, kind, y)
    {
      InsertRank(chain, kind, head, j, x, y);
    }
  }

  /** Exactly the nodes behind an element have a higher rank than it. */
  lemma RankOfPlace(chain: seq<nat>, kind: seq<Kind>, head: nat, k: nat, y: nat)
    requires Chain(chain, head, |kind|) && 0 < k < |chain| - 1 && y in chain && IsElement(kind, chain[k])
    ensures Place(chain, chain[k]) == k
    ensures Rank(chain, kind, chain[k]) < Rank(chain, kind, y) <==> k < Place(chain, y)
  {
    PlaceAt(chain, head, |kind|, k);
    ElementsSplit(chain, kind, k);
    if Place(chain, y) <= k {
      UptoMonotone(chain, kind, Place(chain, y), k);
    } else {
      UptoMonotone(chain, kind, k + 1, Place(chain, y));
    }
  }

  lemma InsertRemoved(chain: seq<nat>, k: nat)
    requires k < |chain|
    ensures Insert(Remove(chain, k), k, chain[k]) == chain
  {}

  lemma RemoveRank(chain: seq<nat>, kind: seq<Kind>, head: nat, k: nat, y: nat)
    requires Chain(chain, head, |kind|) && 0 < k < |chain| - 1 && y in Remove(chain, k)
    ensures y in chain && y != chain[k] && chain[k] in chain
    ensures Rank(Remove(chain, k), kind, y)
         == Rank(chain, kind, y)
            - if IsElement(kind, chain[k]) && Rank(chain, kind, chain[k]) < Rank(chain, kind, y) then 1 else 0
  {
    InsertRemoved(chain, k);
    RemoveChain(chain, head, |kind|, k);
    var chain' := Remove(chain, k);
    InsertRank(chain', kind, head, k, chain[k], y);
    InsertPlace(chain', head, |kind|, k, chain[k], y);
    if IsElement(kind, chain[k]) {
      RankOfPlace(chain, kind, head, k, y);
    }
  }

  // ---------------------------------------------------------------- the view of the user

  /** The list head is the only node of its type. */
  predicate OneHead(kind: seq<Kind>, head: nat) {
    && 0 < head < |kind| && kind[head].Head?
    && forall y :: 0 < y < |kind| && y != head ==> !kind[y].Head?
  }

  /** The element with `n` elements before it; behind the last one comes the head. */
  function Nth(items: seq<nat>, head: nat, n: nat): nat {
    if n < |items| then items[n] else head
  }

  /** The element with `n` elements up to and including it; before the first one comes the head. */
  function Pth(items: seq<nat>, head: nat, n: nat): nat {
    if 0 < n <= |items| then items[n - 1] else head
  }

  /** The count up to and including a node: the number of the element that follows it. */
  function After(chain: seq<nat>, kind: seq<Kind>, x: nat): nat
    requires x in chain
  {
    Rank(chain, kind, x) + if IsElement(kind, x) then 1 else 0
  }

  /** The count before a node that is reached backwards: before the head come all elements. */
  function Until(chain: seq<nat>, kind: seq<Kind>, x: nat): nat
    requires x in chain
  {
    if x == chain[0] then |Elements(chain, kind)| else Rank(chain, kind, x)
  }

  /** The node at place `i`, when it is no marker, is the one its count says. */
  lemma NthAt(chain: seq<nat>, kind: seq<Kind>, head: nat, i: nat)
    requires Chain(chain, head, |kind|) && OneHead(kind, head) && 0 < i < |chain| && !kind[chain[i]].Iterator?
    ensures chain[i] == Nth(Elements(chain, kind), head, Upto(chain, kind, i)) && chain[i] in Ranks(chain, kind)
    ensures if Upto(chain, kind, i) < |Elements(chain, kind)|
            then kind[chain[i]].Element? && Ranks(chain, kind)[chain[i]] == Upto(chain, kind, i)
            else kind[chain[i]].Head? && Ranks(chain, kind)[chain[i]] == 0
  {
    ElementsSplit(chain, kind, i);
    UptoAll(chain, kind, head);
    RanksAre(chain, kind);
    HeadRank(chain, kind, head);
    PlaceAt(chain, head, |kind|, i);
    if kind[chain[i]].Head? {
      assert chain[i] == chain[0];
      assert i == |chain| - 1;
    }
  }

  lemma PthAt(chain: seq<nat>, kind: seq<Kind>, head: nat, i: nat)
    requires Chain(chain, head, |kind|) && OneHead(kind, head) && i < |chain| - 1 && !kind[chain[i]].Iterator?
    ensures chain[i] == Pth(Elements(chain, kind), head, Upto(chain, kind, i + 1)) && chain[i] in Ranks(chain, kind)
    ensures if 0 < Upto(chain, kind, i + 1) <= |Elements(chain, kind)|
            then kind[chain[i]].Element? && Ranks(chain, kind)[chain[i]] == Upto(chain, kind, i + 1) - 1
            else kind[chain[i]].Head? && Ranks(chain, kind)[chain[i]] == 0
  {
    ElementsSplit(chain, kind, i);
    RanksAre(chain, kind);
    HeadRank(chain, kind, head);
    PlaceAt(chain, head, |kind|, i);
    if kind[chain[i]].Head? {
      assert chain[i] == chain[0];
      assert i == 0;
    }
  }

  lemma UptoAll(chain: seq<nat>, kind: seq<Kind>, head: nat)
    requires Chain(chain, head, |kind|) && OneHead(kind, head)
    ensures Upto(chain, kind, |chain| - 1) == |Elements(chain, kind)|
  {
    ElementsSplit(chain, kind, |chain| - 1);
    assert chain[..|chain|] == chain;
  }

  lemma UptoPlaces(chain: seq<nat>, kind: seq<Kind>, head: nat, x: nat)
    requires Chain(chain, head, |kind|) && OneHead(kind, head) && x in chain
    ensures Place(chain, x) + 1 < |chain| && Upto(chain, kind, Place(chain, x) + 1) == After(chain, kind, x)
    ensures 0 < PlaceBefore(chain, x) && Upto(chain, kind, PlaceBefore(chain, x)) == Until(chain, kind, x)
    ensures x != head ==> Place(chain, x) == PlaceBefore(chain, x)
  {
    PlacesOf(chain, head, |kind|, x);
    ElementsSplit(chain, kind, Place(chain, x));
    UptoAll(chain, kind, head);
  }

  /** The element of a number is linked, and its rank is that number. */
  lemma {:induction false} NthPlace(chain: seq<nat>, kind: seq<Kind>, head: nat, n: nat)
    requires Chain(chain, head, |kind|) && OneHead(kind, head) && n < |Elements(chain, kind)|
    ensures var e := Elements(chain, kind)[n];
      && 0 < e < |kind| && kind[e].Element? && e != head && e in chain && 0 < Place(chain, e) < |chain| - 1
      && Rank(chain, kind, e) == n && chain[Place(chain, e)] == e
  {
    var i := FindNth(chain, kind, n);
    PlaceAt(chain, head, |kind|, i);
    assert i != 0 && i != |chain| - 1;
  }

  lemma {:induction false} FindNth(chain: seq<nat>, kind: seq<Kind>, n: nat) returns (i: nat)
    requires n < |Elements(chain, kind)|
    ensures i < |chain| && chain[i] == Elements(chain, kind)[n] && IsElement(kind, chain[i])
      && Upto(chain, kind, i) == n
  {
    var k := |chain| - 1;
    ElementsSplit(chain, kind, k);
    assert chain[..|chain|] == chain;
    if IsElement(kind, chain[k]) && Upto(chain, kind, k) == n {
      i := k;
    } else {
      i := FindNth(chain[..k], kind, n);
      assert chain[..k][..i] == chain[..i];
      ElementsSplit(chain, kind, i);
    }
  }

  /** The ranks of all linked nodes. */
  ghost function Ranks(chain: seq<nat>, kind: seq<Kind>): map<nat, nat> {
    RanksOf(chain, kind, |chain|)
  }

  /** The ranks of the first `n` nodes; the first place of a node counts. */
  ghost function RanksOf(chain: seq<nat>, kind: seq<Kind>, n: nat): map<nat, nat>
    requires n <= |chain|
  {
    if n == 0 then map[]
    else
      var ranks := RanksOf(chain, kind, n - 1);
      if chain[n - 1] in ranks then ranks else ranks[chain[n - 1] := Upto(chain, kind, n - 1)]
  }

  lemma {:induction false} RanksOfNodes(chain: seq<nat>, kind: seq<Kind>, n: nat)
    requires n <= |chain|
    ensures forall y :: y in RanksOf(chain, kind, n) <==> y in chain[..n]
    ensures forall y :: y in chain[..n] ==> y in chain && RanksOf(chain, kind, n)[y] == Rank(chain, kind, y)
  {
    if n > 0 {
      RanksOfNodes(chain, kind, n - 1);
      assert chain[..n] == chain[..n - 1] + [chain[n - 1]];
      var y := chain[n - 1];
      PlaceFirst(chain, y);
      assert y !in chain[..n - 1] ==> Place(chain, y) == n - 1 by {
        assert Place(chain, y) < n - 1 ==> chain[..n - 1][Place(chain, y)] == y;
      }
    }
  }

  lemma RanksAre(chain: seq<nat>, kind: seq<Kind>)
    ensures forall y :: y in Ranks(chain, kind) <==> y in chain
    ensures forall y :: y in chain ==> Ranks(chain, kind)[y] == Rank(chain, kind, y)
  {
    RanksOfNodes(chain, kind, |chain|);
    assert chain[..|chain|] == chain;
  }

  lemma RankInside(chain: seq<nat>, kind: seq<Kind>, y: nat)
    requires y in Ranks(chain, kind)
    ensures Ranks(chain, kind)[y] <= |Elements(chain, kind)|
  {
    RanksAre(chain, kind);
    UptoMonotone(chain, kind, Place(chain, y), |chain|);
  }

  lemma RankedIsLinked(chain: seq<nat>, kind: seq<Kind>, y: nat)
    ensures y in Ranks(chain, kind) <==> y in chain
  {
    RanksAre(chain, kind);
  }

  /** Where the way forward from a node starts. */
  lemma AfterPlace(chain: seq<nat>, kind: seq<Kind>, head: nat, x: nat) returns (i: nat)
    requires Chain(chain, head, |kind|) && OneHead(kind, head) && x in Ranks(chain, kind)
    ensures i + 1 < |chain| && chain[i] == x && x in chain && i == Place(chain, x)
    ensures Upto(chain, kind, i + 1) == Ranks(chain, kind)[x] + if IsElement(kind, x) then 1 else 0
  {
    RanksAre(chain, kind);
    UptoPlaces(chain, kind, head, x);
    i := Place(chain, x);
  }

  /** Where the way back from a node starts. */
  lemma UntilPlace(chain: seq<nat>, kind: seq<Kind>, head: nat, x: nat) returns (i: nat)
    requires Chain(chain, head, |kind|) && OneHead(kind, head) && x in Ranks(chain, kind)
    ensures 0 < i < |chain| && chain[i] == x && x in chain && i == PlaceBefore(chain, x)
    ensures Upto(chain, kind, i) == if x == head then |Elements(chain, kind)| else Ranks(chain, kind)[x]
  {
    RanksAre(chain, kind);
    UptoPlaces(chain, kind, head, x);
    i := PlaceBefore(chain, x);
  }

  /** A marker counts for nothing, and is neither the first nor the last node. */
  lemma SkipMarker(chain: seq<nat>, kind: seq<Kind>, head: nat, i: nat)
    requires Chain(chain, head, |kind|) && OneHead(kind, head) && i < |chain| && kind[chain[i]].Iterator?
    ensures 0 < i < |chain| - 1 && Upto(chain, kind, i + 1) == Upto(chain, kind, i)
  {
    ElementsSplit(chain, kind, i);
  }

  /** The ranks after the marker `x` was put behind the marker `o`, or unlinked when that is. */
  ghost function Assigned(ranks: map<nat, nat>, x: nat, o: nat): map<nat, nat> {
    if o in ranks then ranks[x := ranks[o]] else ranks - {x}
  }

  /** Unlinking a marker and linking it again only changes its own rank. */
  lemma Relinked(ranks: map<nat, nat>, x: nat, r: nat)
    ensures (ranks - {x})[x := r] == ranks[x := r]
  {}

  lemma Overwritten(ranks: map<nat, nat>, x: nat, r: nat, s: nat)
    ensures ranks[x := r][x := s] == ranks[x := s]
  {}

  lemma RelinkedBoth(ranks: map<nat, nat>, x: nat, y: nat, r: nat, s: nat)
    ensures (ranks - {x, y})[x := r][y := s] == ranks[x := r][y := s]
  {}

  /** Putting two markers around an element and unlinking it leaves both at its place. */
  lemma ErasedRanks(ranks: map<nat, nat>, e: nat, x: nat, y: nat)
    requires e in ranks && x != e && y != e && x != y
    ensures Lowered((ranks - {x, y})[x := ranks[e] + 1][y := ranks[e]], e)
      == Lowered(ranks, e)[x := ranks[e]][y := ranks[e]]
  {}

  lemma HeadRank(chain: seq<nat>, kind: seq<Kind>, head: nat)
    requires Chain(chain, head, |kind|)
    ensures head in Ranks(chain, kind) && Ranks(chain, kind)[head] == 0
  {
    PlaceAt(chain, head, |kind|, 0);
    RanksAre(chain, kind);
  }

  lemma ItemRank(chain: seq<nat>, kind: seq<Kind>, head: nat, k: nat)
    requires Chain(chain, head, |kind|) && OneHead(kind, head) && k < |Elements(chain, kind)|
    ensures var e := Elements(chain, kind)[k];
      0 < e < |kind| && kind[e].Element? && e in Ranks(chain, kind) && Ranks(chain, kind)[e] == k
  {
    NthPlace(chain, kind, head, k);
    RanksAre(chain, kind);
  }

  /** The ranks after the element `e` went: those behind it go down by one. */
  ghost function Lowered(ranks: map<nat, nat>, e: nat): map<nat, nat>
    requires e in ranks
  {
    map y | y in ranks && y != e :: if ranks[e] < ranks[y] then ranks[y] - 1 else ranks[y]
  }

  /** Linking a marker: elements and other ranks stay. */
  lemma LinkMarkerAt(chain: seq<nat>, kind: seq<Kind>, head: nat, j: nat, x: nat)
    requires Chain(chain, head, |kind|) && 1 <= j < |chain| && x !in chain && 0 < x < |kind| && kind[x].Iterator?
    ensures Elements(Insert(chain, j, x), kind) == Elements(chain, kind)
    ensures Ranks(Insert(chain, j, x), kind) == Ranks(chain, kind)[x := Upto(chain, kind, j)]
  {
    InsertMarker(chain, kind, head, j, x);
    RanksAre(chain, kind);
    RanksAre(Insert(chain, j, x), kind);
  }

  /** Linking an element right between two markers. */
  lemma LinkElementAt(chain: seq<nat>, kind: seq<Kind>, head: nat, j: nat, e: nat)
    requires Chain(chain, head, |kind|) && 1 < j < |chain| - 1 && e !in chain && 0 < e < |kind| && kind[e].Element?
    requires kind[chain[j - 1]].Iterator? && kind[chain[j]].Iterator?
    ensures var chain', a, f, n := Insert(chain, j, e), chain[j - 1], chain[j], Upto(chain, kind, j);
      && n <= |Elements(chain, kind)| && Elements(chain', kind) == Insert(Elements(chain, kind), n, e)
      && a in Ranks(chain, kind) && Ranks(chain, kind)[a] == n
      && a in Ranks(chain', kind) && e in Ranks(chain', kind) && f in Ranks(chain', kind)
      && Ranks(chain', kind)[a] == Ranks(chain', kind)[e] == n && Ranks(chain', kind)[f] == n + 1
  {
    var chain' := Insert(chain, j, e);
    InsertElements(chain, kind, j, e);
    InsertChain(chain, head, |kind|, j, e);
    ElementsSplit(chain, kind, j - 1);
    PlaceAt(chain, head, |kind|, j - 1);
    PlaceAt(chain, head, |kind|, j);
    PlaceAt(chain', head, |kind|, j);
    InsertRank(chain, kind, head, j, e, chain[j - 1]);
    InsertRank(chain, kind, head, j, e, chain[j]);
    InsertUpto(chain, kind, j, e, j);
    RanksAre(chain, kind);
    RanksAre(chain', kind);
    assert chain'[j] == e;
  }

  /** Where two neighbouring markers are. */
  lemma BetweenMarkers(succ: seq<SWord>, pred: seq<PWord>, chain: seq<nat>, kind: seq<Kind>, head: nat, a: nat, f: nat)
    returns (j: nat)
    requires |kind| == |succ| && Spelled(succ, pred, chain, head) && OneHead(kind, head)
    requires a in Ranks(chain, kind) && a < |kind| && 0 < f < |kind| && kind[a].Iterator? && kind[f].Iterator?
      && succ[a].ptr == f
    ensures a in chain && f in chain && 1 < j < |chain| - 1 && chain[j - 1] == a && chain[j] == f
    ensures Place(chain, a) == j - 1 && PlaceBefore(chain, f) == j
    ensures Upto(chain, kind, j) == Ranks(chain, kind)[a]
  {
    RanksAre(chain, kind);
    NeighbourPlace(succ, pred, chain, head, a, f);
    PlacesOf(chain, head, |kind|, f);
    j := Place(chain, f);
    PlaceAt(chain, head, |kind|, j - 1);
    ElementsSplit(chain, kind, j - 1);
  }

  lemma RemovedNodes(chain: seq<nat>, head: nat, size: nat, k: nat)
    requires Chain(chain, head, size) && 0 < k < |chain| - 1
    ensures forall y :: y in Remove(chain, k) <==> y in chain && y != chain[k]
  {
    RemoveChain(chain, head, size, k);
    RemoveContents(chain, k);
  }

  /** Unlinking a marker: elements and other ranks stay. */
  lemma UnlinkMarkerAt(chain: seq<nat>, kind: seq<Kind>, head: nat, k: nat)
    requires Chain(chain, head, |kind|) && 0 < k < |chain| - 1 && kind[chain[k]].Iterator?
    ensures Elements(Remove(chain, k), kind) == Elements(chain, kind)
    ensures Ranks(Remove(chain, k), kind) == Ranks(chain, kind) - {chain[k]}
  {
    RemoveElements(chain, kind, k);
    KeptRanks(chain, kind, head, k);
  }

  lemma KeptRanks(chain: seq<nat>, kind: seq<Kind>, head: nat, k: nat)
    requires Chain(chain, head, |kind|) && 0 < k < |chain| - 1 && kind[chain[k]].Iterator?
    ensures Ranks(Remove(chain, k), kind) == Ranks(chain, kind) - {chain[k]}
  {
    var chain' := Remove(chain, k);
    RemoveChain(chain, head, |kind|, k);
    InsertRemoved(chain, k);
    InsertMarker(chain', kind, head, k, chain[k]);
    RanksAre(chain, kind);
    RanksAre(chain', kind);
  }

  /** Unlinking an element: it goes from the elements, and the ranks behind it are lowered. */
  lemma UnlinkElementAt(chain: seq<nat>, kind: seq<Kind>, head: nat, k: nat)
    requires Chain(chain, head, |kind|) && 0 < k < |chain| - 1 && kind[chain[k]].Element?
    ensures Upto(chain, kind, k) < |Elements(chain, kind)| && Elements(chain, kind)[Upto(chain, kind, k)] == chain[k]
    ensures Elements(Remove(chain, k), kind) == Remove(Elements(chain, kind), Upto(chain, kind, k))
    ensures chain[k] in Ranks(chain, kind) && Ranks(chain, kind)[chain[k]] == Upto(chain, kind, k)
    ensures Ranks(Remove(chain, k), kind) == Lowered(Ranks(chain, kind), chain[k])
  {
    RemoveElements(chain, kind, k);
    ElementsSplit(chain, kind, k);
    PlaceAt(chain, head, |kind|, k);
    RanksAre(chain, kind);
    LoweredRanks(chain, kind, head, k);
  }

  lemma LoweredRanks(chain: seq<nat>, kind: seq<Kind>, head: nat, k: nat)
    requires Chain(chain, head, |kind|) && 0 < k < |chain| - 1 && kind[chain[k]].Element?
      && chain[k] in Ranks(chain, kind)
    ensures Ranks(Remove(chain, k), kind) == Lowered(Ranks(chain, kind), chain[k])
  {
    var ranks, ranks' := Ranks(chain, kind), Ranks(Remove(chain, k), kind);
    RemovedNodes(chain, head, |kind|, k);
    RanksAre(chain, kind);
    RanksAre(Remove(chain, k), kind);
    forall y | y in ranks'
      ensures y in ranks && ranks'[y] == ranks[y] - if ranks[chain[k]] < ranks[y] then 1 else 0
    {
      LoweredRank(chain, kind, head, k, y);
    }
    LoweredAre(ranks, ranks', chain[k]);
  }

  lemma LoweredRank(chain: seq<nat>, kind: seq<Kind>, head: nat, k: nat, y: nat)
    requires Chain(chain, head, |kind|) && 0 < k < |chain| - 1 && kind[chain[k]].Element?
    requires y in Ranks(Remove(chain, k), kind)
    ensures var ranks := Ranks(chain, kind);
      && chain[k] in ranks && y in ranks
      && Ranks(Remove(chain, k), kind)[y] == ranks[y] - if ranks[chain[k]] < ranks[y] then 1 else 0
  {
    RanksAre(chain, kind);
    RanksAre(Remove(chain, k), kind);
    RemoveRank(chain, kind, head, k, y);
  }

  lemma LoweredAre(ranks: map<nat, nat>, ranks': map<nat, nat>, e: nat)
    requires e in ranks && (forall y :: y in ranks' <==> y in ranks && y != e)
    requires forall y :: y in ranks' ==> ranks'[y] == ranks[y] - if ranks[e] < ranks[y] then 1 else 0
    ensures ranks' == Lowered(ranks, e)
  {}

  // ---------------------------------------------------------------- comparing positions

  /** Walking from place `p` to place `i` met markers only, and not `target`. */
  predicate Walked(chain: seq<nat>, kind: seq<Kind>, p: nat, i: nat, target: nat) {
    p < i < |chain| && forall q :: p < q < i ==> chain[q] < |kind| && kind[chain[q]].Iterator? && chain[q] != target
  }

  lemma WalkStep(chain: seq<nat>, kind: seq<Kind>, head: nat, p: nat, i: nat, target: nat)
    requires Chain(chain, head, |kind|) && OneHead(kind, head)
    requires Walked(chain, kind, p, i, target) && kind[chain[i]].Iterator? && chain[i] != target
    ensures i + 1 < |chain| && Walked(chain, kind, p, i + 1, target) && Place(chain, chain[i]) == i
  {
    PlaceAt(chain, head, |kind|, i);
  }

  /** Meeting the other marker on the way means equal ranks. */
  lemma WalkMeets(chain: seq<nat>, kind: seq<Kind>, head: nat, a: nat, i: nat, b: nat)
    requires Chain(chain, head, |kind|) && OneHead(kind, head) && a in chain && a < |kind| && kind[a].Iterator?
    requires Walked(chain, kind, Place(chain, a), i, b) && chain[i] == b && b < |kind| && kind[b].Iterator?
    ensures b in chain && Rank(chain, kind, a) == Rank(chain, kind, b)
  {
    PlaceAt(chain, head, |kind|, i);
    NoneBetween(chain, kind, Place(chain, a), i);
  }

  /** Both walks ending without a meeting means different ranks. */
  lemma WalksMiss(chain: seq<nat>, kind: seq<Kind>, head: nat, a: nat, b: nat, i: nat, k: nat)
    requires Chain(chain, head, |kind|) && OneHead(kind, head) && a in chain && b in chain && a != b
    requires kind[a].Iterator? && kind[b].Iterator?
    requires Walked(chain, kind, Place(chain, a), i, b) && !kind[chain[i]].Iterator?
    requires Walked(chain, kind, Place(chain, b), k, a) && !kind[chain[k]].Iterator?
    ensures Rank(chain, kind, a) != Rank(chain, kind, b)
  {
    PlacesOf(chain, head, |kind|, a);
    PlacesOf(chain, head, |kind|, b);
    if Place(chain, a) < Place(chain, b) {
      WalkMisses(chain, kind, head, Place(chain, a), i, Place(chain, b));
    } else {
      WalkMisses(chain, kind, head, Place(chain, b), k, Place(chain, a));
    }
  }

  lemma WalkMisses(chain: seq<nat>, kind: seq<Kind>, head: nat, p: nat, i: nat, t: nat)
    requires Chain(chain, head, |kind|) && OneHead(kind, head) && p < t < |chain| && kind[chain[t]].Iterator?
    requires Walked(chain, kind, p, i, chain[t]) && !kind[chain[i]].Iterator?
    ensures Upto(chain, kind, p) != Upto(chain, kind, t)
  {
    NoneBetween(chain, kind, p, t);
    assert i < t;
    assert chain[i] != head;
  }

  /** Two markers have the same rank exactly when no element separates them. */
  lemma SameRank(chain: seq<nat>, kind: seq<Kind>, head: nat, i: nat, j: nat)
    requires Chain(chain, head, |kind|) && 0 < i <= j < |chain| - 1 && kind[chain[i]].Iterator?
      && kind[chain[j]].Iterator?
    ensures chain[i] in chain && chain[j] in chain
    ensures Rank(chain, kind, chain[i]) == Rank(chain, kind, chain[j]) <==>
            forall q :: i <= q <= j ==> !IsElement(kind, chain[q])
  {
    PlaceAt(chain, head, |kind|, i);
    PlaceAt(chain, head, |kind|, j);
    NoneBetween(chain, kind, i, j);
  }
}
