/** Sums over the program counters of a protocol's participants. */
module Counting {
  function Sum<T>(s: seq<T>, weight: T -> int): int {
    if s == [] then 0 else Sum(s[..|s| - 1], weight) + weight(s[|s| - 1])
  }

  lemma {:induction false} SumUpdate<T>(s: seq<T>, i: nat, v: T, weight: T -> int)
    requires i < |s|
    ensures Sum(s[i := v], weight) == Sum(s, weight) - weight(s[i]) + weight(v)
  {
    var s' := s[i := v];
    if i == |s| - 1 {
      assert s'[..|s| - 1] == s[..|s| - 1];
    } else {
      assert s'[..|s| - 1] == s[..|s| - 1][i := v];
      SumUpdate(s[..|s| - 1], i, v, weight);
    }
  }

  lemma SumAppend<T>(s: seq<T>, v: T, weight: T -> int)
    ensures Sum(s + [v], weight) == Sum(s, weight) + weight(v)
  {
    assert (s + [v])[..|s|] == s;
  }

  lemma {:induction false} SumOrder<T(!new)>(s: seq<T>, low: T -> int, high: T -> int)
    requires forall x :: low(x) <= high(x)
    ensures Sum(s, low) <= Sum(s, high)
  {
    if s == [] {
    } else {
      SumOrder(s[..|s| - 1], low, high);
    }
  }

  lemma {:induction false} SumAtLeast<T(!new)>(s: seq<T>, i: nat, weight: T -> int)
    requires i < |s| && forall x :: 0 <= weight(x)
    ensures 0 <= weight(s[i]) <= Sum(s, weight)
  {
    SumNonNegative(s[..|s| - 1], weight);
    if i < |s| - 1 {
      SumAtLeast(s[..|s| - 1], i, weight);
    }
  }

  lemma {:induction false} SumNonNegative<T(!new)>(s: seq<T>, weight: T -> int)
    requires forall x :: 0 <= weight(x)
    ensures 0 <= Sum(s, weight)
  {
    if s == [] {
    } else {
      SumNonNegative(s[..|s| - 1], weight);
    }
  }
}
