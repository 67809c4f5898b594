/**
 * The circular marked list of `ll_list`, as values: link words, the chain they spell, and what
 * linking, unlinking and helping do to both.
 */
module ListModel {

  datatype Kind = Head | Element | Iterator

  /**
   * A successor word: pointer, S mark (the node pointed at is being
   * unlinked), D mark (this node is). Address 0 is nil.
   */
  datatype SWord = SWord(ptr: nat, s: bool, d: bool)

  /** A predecessor word: pointer and mark (this node is unlinked). */
  datatype PWord = PWord(ptr: nat, m: bool)

  const SNIL := SWord(0, false, false)
  const PNIL := PWord(0, false)

  // ---------------------------------------------------------------- chains

  /**
   * A chain starts and ends with the list head and visits every linked node once in between,
   * elements and iterator markers alike. Node addresses run from 1 to `size - 1`.
   */
  predicate Chain(chain: seq<nat>, head: nat, size: nat) {
    && 2 <= |chain| && chain[0] == head && chain[|chain| - 1] == head
    && (forall i :: 0 <= i < |chain| ==> 0 < chain[i] < size)
    && (forall i, j :: 0 <= i < j < |chain| - 1 ==> chain[i] != chain[j])
  }

  function Insert(chain: seq<nat>, j: nat, x: nat): seq<nat>
    requires j <= |chain|
  {
    chain[..j] + [x] + chain[j..]
  }

  function Remove(chain: seq<nat>, j: nat): seq<nat>
    requires j < |chain|
  {
    chain[..j] + chain[j + 1..]
  }

  lemma InsertChain(chain: seq<nat>, head: nat, size: nat, j: nat, x: nat)
    requires Chain(chain, head, size) && 1 <= j < |chain| && x !in chain && 0 < x < size
    ensures Chain(Insert(chain, j, x), head, size)
  {}

  lemma RemoveChain(chain: seq<nat>, head: nat, size: nat, j: nat)
    requires Chain(chain, head, size) && 1 <= j < |chain| - 1
    ensures Chain(Remove(chain, j), head, size) && chain[j] !in Remove(chain, j)
  {}

  /** A node sits at one place of the chain only; the head sits at both ends. */
  lemma ChainPlace(chain: seq<nat>, head: nat, size: nat, i: nat, j: nat)
    requires Chain(chain, head, size) && i < |chain| && j < |chain| && chain[i] == chain[j]
    ensures i == j || (chain[i] == head && (i == 0 || i == |chain| - 1) && (j == 0 || j == |chain| - 1))
  {}

  lemma InsertContents(chain: seq<nat>, j: nat, x: nat)
    requires j <= |chain|
    ensures x in Insert(chain, j, x) && forall y :: y in chain ==> y in Insert(chain, j, x)
  {
    assert Insert(chain, j, x)[j] == x;
    forall q | 0 <= q < |chain|
      ensures chain[q] in Insert(chain, j, x)
    {
      assert Insert(chain, j, x)[if q < j then q else q + 1] == chain[q];
    }
  }

  lemma RemoveContents(chain: seq<nat>, k: nat)
    requires k < |chain|
    ensures forall y :: y in chain && y != chain[k] ==> y in Remove(chain, k)
  {
    forall q | 0 <= q < |chain| && q != k
      ensures chain[q] in Remove(chain, k)
    {
      assert Remove(chain, k)[if q < k then q else q - 1] == chain[q];
    }
  }

  // ---------------------------------------------------------------- places

  /** The position of `y` in a sequence. */
  function Place(s: seq<nat>, y: nat): (i: nat)
    requires y in s
    ensures i < |s| && s[i] == y
  {
    if s[0] == y then 0 else Place(s[1..], y) + 1
  }

  /** The place of a node as the target of a predecessor word: the head counts as the end of the chain. */
  function PlaceBefore(chain: seq<nat>, y: nat): (i: nat)
    requires chain != [] && y in chain
    ensures i < |chain|
  {
    if y == chain[0] then |chain| - 1 else Place(chain, y)
  }

  lemma PlaceAt(chain: seq<nat>, head: nat, size: nat, i: nat)
    requires Chain(chain, head, size) && i < |chain|
    ensures i < |chain| - 1 ==> Place(chain, chain[i]) == i
    ensures 0 < i ==> PlaceBefore(chain, chain[i]) == i
  {
    ChainPlace(chain, head, size, i, Place(chain, chain[i]));
    PlaceFirst(chain, chain[i]);
  }

  /** `Place` finds the first occurrence. */
  lemma {:induction false} PlaceFirst(s: seq<nat>, y: nat)
    requires y in s
    ensures y !in s[..Place(s, y)]
  {
    if s[0] != y {
      PlaceFirst(s[1..], y);
      assert s[..Place(s, y)] == [s[0]] + s[1..][..Place(s[1..], y)];
    }
  }

  /** The places of a linked node: one to follow its successor word from, one to follow its predecessor word from. */
  lemma PlacesOf(chain: seq<nat>, head: nat, size: nat, x: nat)
    requires Chain(chain, head, size) && x in chain
    ensures Place(chain, x) < |chain| - 1 && chain[Place(chain, x)] == x
    ensures 0 < PlaceBefore(chain, x) && chain[PlaceBefore(chain, x)] == x
    ensures x != head ==> 0 < Place(chain, x) == PlaceBefore(chain, x)
    ensures chain[PlaceBefore(chain, x) - 1] in chain
      && Place(chain, chain[PlaceBefore(chain, x) - 1]) == PlaceBefore(chain, x) - 1
  {
    PlaceFirst(chain, x);
    PlaceAt(chain, head, size, PlaceBefore(chain, x) - 1);
  }
}
