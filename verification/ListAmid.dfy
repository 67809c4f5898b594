/**
 * What a list means to its user while other threads are unlinking some of its nodes: the sequence of
 * the elements that nobody is unlinking.
 */
module ListAmid {
  import opened ListAiding
  import opened ListElements
  import opened ListHelping
  import opened ListLine
  import opened ListModel
  import opened ListRepair

  /** The elements among some nodes that nobody is unlinking. */
  function Users(s: seq<nat>, l: Line, kind: seq<Kind>): seq<nat> { Elements(Living(s, l), kind) }

  /** The elements of a line that nobody is unlinking, in order. */
  function Members(l: Line, kind: seq<Kind>): seq<nat> { Users(l.nodes, l, kind) }

  lemma UsersConcat(s: seq<nat>, t: seq<nat>, l: Line, kind: seq<Kind>)
    ensures Users(s + t, l, kind) == Users(s, l, kind) + Users(t, l, kind)
  {
    LivingConcat(s, t, l);
    ElementsConcat(Living(s, l), Living(t, l), kind);
  }

  lemma UsersSame(s: seq<nat>, l: Line, l': Line, kind: seq<Kind>)
    requires forall y :: y in s ==> (Lives(l, y) <==> Lives(l', y))
    ensures Users(s, l', kind) == Users(s, l, kind)
  {
    LivingSame(s, l, l');
  }

  lemma HelpedMembers(l: Line, l': Line, kind: seq<Kind>)
    requires Helped(l, l')
    ensures Members(l', kind) == Members(l, kind)
  {
    HelpedLiving(l, l');
  }

  lemma UsersOne(x: nat, l: Line, kind: seq<Kind>)
    ensures Users([x], l, kind) == if Lives(l, x) && IsElement(kind, x) then [x] else []
  {
    assert [x][1..] == [];
    assert Living([x], l) == if Lives(l, x) then [x] else [];
    assert Elements([x], kind) == if IsElement(kind, x) then [x] else [];
  }

  lemma {:induction false} UsersNone(s: seq<nat>, l: Line, kind: seq<Kind>)
    requires forall i :: 0 <= i < |s| ==> !(Lives(l, s[i]) && IsElement(kind, s[i]))
    ensures Users(s, l, kind) == []
  {
    if s != [] {
      UsersNone(s[1..], l, kind);
      assert s == [s[0]] + s[1..];
      UsersConcat([s[0]], s[1..], l, kind);
      UsersOne(s[0], l, kind);
    }
  }

  /** Nobody's element lies strictly between the two places. */
  predicate Passing(l: Line, kind: seq<Kind>, lo: int, hi: int)
    requires -1 <= lo && hi <= |l.nodes|
  {
    forall q :: lo < q < hi ==> !(Lives(l, l.nodes[q]) && IsElement(kind, l.nodes[q]))
  }

  lemma PassingHelped(l: Line, l': Line, kind: seq<Kind>, lo: int, hi: int)
    requires Helped(l, l') && -1 <= lo && hi <= |l.nodes| && Passing(l, kind, lo, hi)
    ensures Passing(l', kind, lo, hi)
  {}

  /** The members, seen from a node that lives. */
  lemma MembersAt(l: Line, kind: seq<Kind>, i: nat)
    requires i < |l.nodes| && Lives(l, l.nodes[i])
    ensures Members(l, kind) == Users(l.nodes[..i], l, kind)
      + (if IsElement(kind, l.nodes[i]) then [l.nodes[i]] else []) + Users(l.nodes[i + 1..], l, kind)
  {
    assert l.nodes == l.nodes[..i] + [l.nodes[i]] + l.nodes[i + 1..];
    UsersConcat(l.nodes[..i] + [l.nodes[i]], l.nodes[i + 1..], l, kind);
    UsersConcat(l.nodes[..i], [l.nodes[i]], l, kind);
    UsersOne(l.nodes[i], l, kind);
  }

  /** The first members, up to a node behind which more may follow. */
  lemma FirstUsers(l: Line, kind: seq<Kind>, lo: nat, hi: nat)
    requires lo <= hi <= |l.nodes| && Passing(l, kind, lo - 1, hi)
    ensures Users(l.nodes[..hi], l, kind) == Users(l.nodes[..lo], l, kind)
  {
    assert l.nodes[..hi] == l.nodes[..lo] + l.nodes[lo..hi];
    UsersConcat(l.nodes[..lo], l.nodes[lo..hi], l, kind);
    UsersNone(l.nodes[lo..hi], l, kind);
  }

  /** The node at place `n` was unlinked: cut out, or forgotten altogether. */
  lemma MembersWithout(l: Line, l': Line, kind: seq<Kind>, head: nat, size: nat, n: nat)
    requires Shape(l, head, size) && 0 < n < |l.nodes| - 1 && Lives(l, l.nodes[n])
    requires forall y :: y != l.nodes[n] ==> (Lives(l', y) <==> Lives(l, y))
    requires l'.nodes == Remove(l.nodes, n) || (l'.nodes == l.nodes && !Lives(l', l.nodes[n]))
    ensures Members(l', kind) == Users(l.nodes[..n], l, kind) + Users(l.nodes[n + 1..], l, kind)
  {
    var x, front, back := l.nodes[n], l.nodes[..n], l.nodes[n + 1..];
    forall y | y in front || y in back
      ensures y != x
    {}
    UsersSame(front, l, l', kind);
    UsersSame(back, l, l', kind);
    if l'.nodes == Remove(l.nodes, n) {
      UsersConcat(front, back, l', kind);
    } else {
      assert l.nodes == front + [x] + back;
      UsersConcat(front + [x], back, l', kind);
      UsersConcat(front, [x], l', kind);
      UsersOne(x, l', kind);
    }
  }

  /** A node was linked right behind place `k`. */
  lemma MembersWith(l: Line, l': Line, kind: seq<Kind>, k: nat, x: nat)
    requires k < |l.nodes| && Lives(l, x) && l'.nodes == Insert(l.nodes, k + 1, x)
    requires forall y :: Lives(l', y) <==> Lives(l, y)
    ensures Members(l', kind) == Users(l.nodes[..k + 1], l, kind) + (if IsElement(kind, x) then [x] else [])
      + Users(l.nodes[k + 1..], l, kind)
    ensures Members(l, kind) == Users(l.nodes[..k + 1], l, kind) + Users(l.nodes[k + 1..], l, kind)
  {
    UsersSame(l'.nodes, l, l', kind);
    UsersConcat(l.nodes[..k + 1] + [x], l.nodes[k + 1..], l, kind);
    UsersConcat(l.nodes[..k + 1], [x], l, kind);
    UsersOne(x, l, kind);
    assert l.nodes == l.nodes[..k + 1] + l.nodes[k + 1..];
    UsersConcat(l.nodes[..k + 1], l.nodes[k + 1..], l, kind);
  }

  // ---------------------------------------------------------------- walking

  /** No node between the two places is being unlinked any more. */
  predicate Completed(l: Line, lo: nat, hi: nat)
    requires hi <= |l.nodes|
  {
    forall q :: lo < q < hi ==> l.nodes[q] !in l.dead
  }

  /** A step along the chain, from a node that is no element of anybody's to one that is not being unlinked. */
  lemma PassOver(l: Line, head: nat, size: nat, kind: seq<Kind>, i: nat, j: nat, n: nat)
    requires Shape(l, head, size) && i <= j < |l.nodes| - 1 && n == Next(l, j) && l.nodes[n] !in l.dead
    requires i < j ==> Completed(l, i, j + 1) && Passing(l, kind, i, j) && !IsElement(kind, l.nodes[j])
    ensures Completed(l, i, n + 1) && Passing(l, kind, i, n)
  {
    NextCleared(l, j);
    forall q | i < q < n + 1
      ensures l.nodes[q] !in l.dead
    {
      PassOne(l, head, size, kind, i, j, n, q);
    }
    forall q | i < q < n
      ensures !(Lives(l, l.nodes[q]) && IsElement(kind, l.nodes[q]))
    {
      PassOne(l, head, size, kind, i, j, n, q);
    }
  }

  lemma PassOne(l: Line, head: nat, size: nat, kind: seq<Kind>, i: nat, j: nat, n: nat, q: nat)
    requires Shape(l, head, size) && i <= j < n < |l.nodes| && Cleared(l, j, n) && l.nodes[n] !in l.dead && i < q <= n
    requires i < j ==> Completed(l, i, j + 1) && Passing(l, kind, i, j) && !IsElement(kind, l.nodes[j])
    ensures l.nodes[q] !in l.dead
    ensures q < n ==> !(Lives(l, l.nodes[q]) && IsElement(kind, l.nodes[q]))
  {}

  lemma HeadIsInside(l: Line, head: nat, kind: seq<Kind>, j: nat)
    requires Shape(l, head, |kind|) && OneHead(kind, head) && j < |l.nodes| && kind[l.nodes[j]].Iterator?
    ensures 0 < j < |l.nodes| - 1
  {}

  lemma PassBack(l: Line, kind: seq<Kind>, m: nat, j: nat, i: nat)
    requires m < j < i <= |l.nodes| && Passing(l, kind, j, i) && !IsElement(kind, l.nodes[j])
    requires forall q :: m < q < j ==> !Lives(l, l.nodes[q])
    ensures Passing(l, kind, m, i)
  {}

  /** Counting one more element. */
  lemma CountOn(l: Line, head: nat, kind: seq<Kind>, j: nat)
    requires Shape(l, head, |kind|) && OneHead(kind, head) && j < |l.nodes| && Lives(l, l.nodes[j])
    requires l.nodes[j] != head && !kind[l.nodes[j]].Iterator?
    ensures j + 1 < |l.nodes| && |Users(l.nodes[..j + 1], l, kind)| == |Users(l.nodes[..j], l, kind)| + 1
  {
    assert l.nodes[..j + 1] == l.nodes[..j] + [l.nodes[j]];
    UsersConcat(l.nodes[..j], [l.nodes[j]], l, kind);
    UsersOne(l.nodes[j], l, kind);
  }

  /** When nobody's element comes before place `j`, the members are those from there on. */
  lemma MembersFrom(l: Line, head: nat, kind: seq<Kind>, j: nat)
    requires Shape(l, head, |kind|) && OneHead(kind, head) && 0 < j < |l.nodes| && Passing(l, kind, 0, j)
    requires Lives(l, l.nodes[j])
    ensures Users(l.nodes[..j], l, kind) == []
    ensures Members(l, kind) ==
      (if IsElement(kind, l.nodes[j]) then [l.nodes[j]] else []) + Users(l.nodes[j + 1..], l, kind)
    ensures l.nodes[j] == head ==> Members(l, kind) == []
  {
    MembersAt(l, kind, j);
    UsersNone(l.nodes[..j], l, kind);
    if l.nodes[j] == head {
      ChainPlace(l.nodes, head, |kind|, 0, j);
    }
  }

  lemma ElementInside(l: Line, head: nat, kind: seq<Kind>, j: nat)
    requires Shape(l, head, |kind|) && OneHead(kind, head) && j < |l.nodes|
    requires !kind[l.nodes[j]].Iterator? && !kind[l.nodes[j]].Head?
    ensures 0 < j < |l.nodes| - 1 && l.nodes[j] != head && IsElement(kind, l.nodes[j])
  {}

  /** The word that an unmarked predecessor has for a node that nobody is unlinking. */
  lemma ReadyToUnlink(succ: seq<SWord>, pred: seq<PWord>, l: Line, head: nat, k: nat, n: nat)
    requires Spells(succ, pred, l, head) && k + 1 < |l.nodes| && On(l, k) && Next(l, k) == n && Lives(l, l.nodes[n])
    requires l.nodes[k] < |succ| && !pred[l.nodes[k]].m
    ensures succ[l.nodes[k]] == SWord(l.nodes[n], false, false)
  {
    assert SuccOk(succ, pred, l, k);
  }

  /** A node that somebody is unlinking has no predecessor that names it without a mark. */
  lemma NotReady(succ: seq<SWord>, pred: seq<PWord>, l: Line, head: nat, k: nat, n: nat)
    requires Spells(succ, pred, l, head) && k < n < |l.nodes| && On(l, k) && !Lives(l, l.nodes[n])
    requires On(l, n) ==> Next(l, k) == n
    requires l.nodes[k] < |succ| && l.nodes[n] < |succ|
    ensures var w := succ[l.nodes[k]];
      if On(l, n) then w.ptr == l.nodes[n] && w.s else w.ptr != l.nodes[n] && pred[l.nodes[n]].m
  {
    assert SuccOk(succ, pred, l, k) && PredOk(pred, l, n);
    NextIsOn(l, head, |succ|, k);
  }

  /** A marked predecessor word that names an earlier node, as it does in any list, names the one next to it. */
  lemma MarkedIsNext(succ: seq<SWord>, pred: seq<PWord>, l: Line, head: nat, k: nat, n: nat)
    requires Spells(succ, pred, l, head) && k < n < |l.nodes| && On(l, n)
    requires l.nodes[n] < |pred| && pred[l.nodes[n]] == PWord(l.nodes[k], true)
    ensures Next(l, k) == n
  {
    assert PredOk(pred, l, n);
    NextOfPrev(l, n);
    PlacesMeet(l, head, |succ|, k, Prev(l, n));
  }

  /** The word of a predecessor that was found, for a node that lives and for another one. */
  lemma WordBefore(succ: seq<SWord>, pred: seq<PWord>, l: Line, head: nat, k: nat, n: nat)
    requires Spells(succ, pred, l, head) && k < n < |l.nodes| && On(l, k) && (On(l, n) ==> Next(l, k) == n)
    requires l.nodes[k] < |succ| && l.nodes[n] < |succ| && !pred[l.nodes[k]].m
    ensures Lives(l, l.nodes[n]) ==> succ[l.nodes[k]] == SWord(l.nodes[n], false, false)
    ensures var w := succ[l.nodes[k]];
      !Lives(l, l.nodes[n]) ==>
        w.ptr != 0 && !w.d && (if On(l, n) then w.ptr == l.nodes[n] && w.s else w.ptr != l.nodes[n])
  {
    assert SuccOk(succ, pred, l, k);
    if Lives(l, l.nodes[n]) {
      ReadyToUnlink(succ, pred, l, head, k, n);
    } else {
      NotReady(succ, pred, l, head, k, n);
    }
  }

  /** The node at place `k` that `pred_` of the one at place `i` found names that, unless it is cut out or astray. */
  lemma FoundBefore(succ: seq<SWord>, pred: seq<PWord>, succ': seq<SWord>, pred': seq<PWord>, l: Line, l': Line,
                    head: nat, k: nat, i: nat, x: nat)
    requires Spells(succ, pred, l, head) && Helped(l, l') && k < i < |l.nodes| && On(l', k) && x < |succ|
    requires var a, b := l.nodes[k], l.nodes[i];
      && a < |succ'| && a < |pred'| && b < |pred| && b < |succ'| && !pred'[a].m
      && Framed(succ, pred, succ', pred', l, l', {b}) && (Aidable(pred, l, b) ==> Spells(succ', pred', l', head))
      && (!pred[b].m ==> b in l'.gone || Next(l', k) == i)
      && (pred[b].m ==> pred[b].ptr < |pred| && l' == l && succ' == succ && pred' == pred[b := PWord(a, true)])
    ensures x < |pred'| && (pred'[x] == PNIL <==> pred[x] == PNIL)
    ensures var a, b := l.nodes[k], l.nodes[i];
      if On(l', i) && Aidable(pred, l, b) then succ'[a] == SWord(b, !Lives(l, b), false)
      else succ'[a].ptr != 0 && succ'[a].ptr != b && !Lives(l, b)
    ensures !Aidable(pred, l, l.nodes[i]) && pred'[x] == PNIL ==> succ'[x] == SNIL && x != l.nodes[k]
  {
    var b := l.nodes[i];
    WordsOf(succ, pred, l, head, i);
    if Aidable(pred, l, b) {
      StillUnlinked(succ, pred, succ', pred', l, l', head, {b}, x);
      if pred[b].m && On(l', i) {
        MarkedIsNext(succ', pred', l', head, k, i);
      }
      WordBefore(succ', pred', l', head, k, i);
    } else {
      StrayedRefuses(succ, pred, pred', l, head, k, i, x);
    }
  }

  lemma NoMembers(l: Line, head: nat, kind: seq<Kind>, j: nat)
    requires Shape(l, head, |kind|) && OneHead(kind, head) && j < |l.nodes| - 1 && Passing(l, kind, j, |l.nodes| - 1)
    requires kind[l.nodes[j]].Head?
    ensures Members(l, kind) == []
  {
    ChainPlace(l.nodes, head, |kind|, 0, j);
    UsersNone(l.nodes, l, kind);
  }

  /** When nobody's element comes behind place `j`, the members are those up to there. */
  lemma MembersUpTo(l: Line, head: nat, kind: seq<Kind>, j: nat)
    requires Shape(l, head, |kind|) && OneHead(kind, head) && j < |l.nodes| - 1 && Passing(l, kind, j, |l.nodes| - 1)
    requires Lives(l, l.nodes[j]) && IsElement(kind, l.nodes[j])
    ensures Users(l.nodes[j + 1..], l, kind) == []
    ensures Members(l, kind) == Users(l.nodes[..j], l, kind) + [l.nodes[j]]
  {
    MembersAt(l, kind, j);
    UsersNone(l.nodes[j + 1..], l, kind);
  }

  // ---------------------------------------------------------------- linking

  /** `x` was linked right behind place `k`; else only what others were unlinking has changed. */
  ghost predicate Linked(l: Line, l': Line, k: nat, x: nat) {
    && k < |l.nodes| && x !in l.nodes && l'.nodes == Insert(l.nodes, k + 1, x)
    && (forall y :: Lives(l', y) <==> Lives(l, y))
  }

  lemma LinkedAfter(l: Line, l1: Line, l': Line, k: nat, x: nat)
    requires Helped(l, l1) && k < |l.nodes| && x !in l.nodes && Helped(InsertAt(l1, k, x), l')
    ensures Linked(l, l', k, x)
  {}

  /** Linking an element puts it among the members, right behind those up to the place. */
  lemma LinkedMembers(l: Line, l': Line, kind: seq<Kind>, k: nat, x: nat)
    requires Linked(l, l', k, x) && Lives(l, x)
    ensures Members(l', kind) == Users(l.nodes[..k + 1], l, kind) + (if IsElement(kind, x) then [x] else [])
      + Users(l.nodes[k + 1..], l, kind)
    ensures Members(l, kind) == Users(l.nodes[..k + 1], l, kind) + Users(l.nodes[k + 1..], l, kind)
  {
    MembersWith(l, l', kind, k, x);
  }
}
