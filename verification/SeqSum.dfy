/** Weighted sums over sequences: the bookkeeping device behind every conservation law of the project. */
module SeqSum {

  /** The sum of `f` over all elements of `s`. */
  function Sum<T>(s: seq<T>, f: T -> int): int {
    if s == [] then 0 else f(s[0]) + Sum(s[1..], f)
  }

  /** Replacing one element changes the sum by the difference of the two weights. */
  lemma {:induction false} SumUpdate<T>(s: seq<T>, i: nat, x: T, f: T -> int)
    requires i < |s|
    ensures Sum(s[i := x], f) == Sum(s, f) - f(s[i]) + f(x)
  {
    if i == 0 {
      assert s[i := x][1..] == s[1..];
    } else {
      assert s[i := x][1..] == s[1..][i - 1 := x];
      SumUpdate(s[1..], i - 1, x, f);
    }
  }

  /** Appending an element adds its weight. */
  lemma {:induction false} SumAppend<T>(s: seq<T>, x: T, f: T -> int)
    ensures Sum(s + [x], f) == Sum(s, f) + f(x)
  {
    if s == [] {
      assert s + [x] == [x];
    } else {
      assert (s + [x])[1..] == s[1..] + [x];
      SumAppend(s[1..], x, f);
    }
  }

  lemma {:induction false} SumConcat<T>(s: seq<T>, t: seq<T>, f: T -> int)
    ensures Sum(s + t, f) == Sum(s, f) + Sum(t, f)
  {
    if s == [] {
      assert s + t == t;
    } else {
      assert (s + t)[1..] == s[1..] + t;
      SumConcat(s[1..], t, f);
    }
  }

  /** With non-negative weights, a sum dominates each of its terms. */
  lemma {:induction false} SumDominates<T>(s: seq<T>, i: nat, f: T -> int)
    requires i < |s|
    requires forall j :: 0 <= j < |s| ==> 0 <= f(s[j])
    ensures f(s[i]) <= Sum(s, f)
  {
    SumNonNegative(s[1..], f);
    if i > 0 {
      SumDominates(s[1..], i - 1, f);
    }
  }

  lemma {:induction false} SumNonNegative<T>(s: seq<T>, f: T -> int)
    requires forall j :: 0 <= j < |s| ==> 0 <= f(s[j])
    ensures 0 <= Sum(s, f)
  {
    if s != [] {
      SumNonNegative(s[1..], f);
    }
  }

  /** With non-negative weights, a sum dominates any two of its terms together. */
  lemma {:induction false} SumDominatesPair<T>(s: seq<T>, i: nat, j: nat, f: T -> int)
    requires i < j < |s|
    requires forall k :: 0 <= k < |s| ==> 0 <= f(s[k])
    ensures f(s[i]) + f(s[j]) <= Sum(s, f)
  {
    if i == 0 {
      SumDominates(s[1..], j - 1, f);
    } else {
      SumDominatesPair(s[1..], i - 1, j - 1, f);
    }
  }

  /** A sum whose terms all vanish is zero. */
  lemma {:induction false} SumZero<T>(s: seq<T>, f: T -> int)
    requires forall j :: 0 <= j < |s| ==> f(s[j]) == 0
    ensures Sum(s, f) == 0
  {
    if s != [] {
      SumZero(s[1..], f);
    }
  }
}
