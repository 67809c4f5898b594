/** Queues that hold a member at most once, as sequences of numbers. */
module Queues {

  /** The queue after a member was taken off it, wherever it was. */
  function Without(s: seq<nat>, x: nat): seq<nat> {
    if s == [] then [] else if s[0] == x then Without(s[1..], x) else [s[0]] + Without(s[1..], x)
  }

  /** `link_back`: linking a member that is linked already changes nothing. */
  function LinkBack(s: seq<nat>, x: nat): seq<nat> { if x in s then s else s + [x] }

  predicate Distinct(s: seq<nat>) {
    forall i, j :: 0 <= i < j < |s| ==> s[i] != s[j]
  }

  lemma WithoutOthers(s: seq<nat>, x: nat)
    ensures forall y :: y in Without(s, x) <==> y != x && y in s
  {
    if s != [] {
      WithoutOthers(s[1..], x);
      assert s == [s[0]] + s[1..];
    }
  }

  lemma {:induction false} WithoutDistinct(s: seq<nat>, x: nat)
    requires Distinct(s)
    ensures Distinct(Without(s, x))
  {
    if s != [] {
      WithoutDistinct(s[1..], x);
      WithoutOthers(s[1..], x);
      assert s[0] !in s[1..];
    }
  }

  /** `x` stands before `y`. */
  predicate Before(s: seq<nat>, x: nat, y: nat) {
    exists i: nat, j: nat :: i < j < |s| && s[i] == x && s[j] == y
  }

  /** Taking a member off leaves the others where they were relative to each other. */
  lemma {:induction false} WithoutKeepsOrder(s: seq<nat>, x: nat, y: nat, z: nat)
    ensures Before(Without(s, x), y, z) <==> y != x && z != x && Before(s, y, z)
  {
    if s != [] {
      var rest := s[1..];
      WithoutKeepsOrder(rest, x, y, z);
      WithoutOthers(rest, x);
      BeforeCons(s[0], rest, y, z);
      BeforeCons(s[0], Without(rest, x), y, z);
      assert s == [s[0]] + rest;
    }
  }

  lemma BeforeCons(a: nat, s: seq<nat>, y: nat, z: nat)
    ensures Before([a] + s, y, z) <==> (a == y && z in s) || Before(s, y, z)
  {
    var t := [a] + s;
    if Before(t, y, z) {
      var i: nat, j: nat :| i < j < |t| && t[i] == y && t[j] == z;
      assert s[j - 1] == z;
      if 0 < i {
        assert s[i - 1] == y;
      }
    }
    if a == y && z in s {
      var j: nat :| j < |s| && s[j] == z;
      assert t[0] == y && t[j + 1] == z;
    }
    if Before(s, y, z) {
      var i: nat, j: nat :| i < j < |s| && s[i] == y && s[j] == z;
      assert t[i + 1] == y && t[j + 1] == z;
    }
  }

  /** Where a member stands once: the queue without it. */
  lemma {:induction false} WithoutOne(s: seq<nat>, k: nat)
    requires k < |s| && Distinct(s)
    ensures Without(s, s[k]) == s[..k] + s[k + 1..]
  {
    if k == 0 {
      WithoutNone(s[1..], s[0]);
    } else {
      WithoutOne(s[1..], k - 1);
      assert s[0] != s[k] && s[1..][k - 1] == s[k];
      assert s[..k] == [s[0]] + s[1..][..k - 1] && s[k + 1..] == s[1..][k..];
    }
  }

  lemma {:induction false} WithoutNone(s: seq<nat>, x: nat)
    requires x !in s
    ensures Without(s, x) == s
  {
    if s != [] {
      WithoutNone(s[1..], x);
    }
  }
}
